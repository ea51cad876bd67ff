# Easy Apply answer engine

A model of the part of a LinkedIn "Easy Apply" auto-applier that decides what
to type, pick, tick or upload in an application modal, and how the modal's
wizard of steps ends. The model covers these parts:

- **Experience table** (`ExperienceMap`). It gives the years claimed for a
  technology named in a "how many years" label. It also says whether a label
  asks a Yes/No experience question.
- **Work authorisation** (`WorkAuthorization`). It recognises citizenship,
  residency and sponsorship questions, and answers them with the two
  configured answers.
- **Language-model helpers** (`GeminiCv`). These post-process the model's
  reply: salary digits, picking one option out of a list, years read from the
  CV, and short free-text answers. The replies themselves are inputs.
- **CV reader and resolver** (`SkillExtraction`, `CvReader`). These cover:
  - skill phrases extracted from a question;
  - whether a skill or certification is held;
  - the cached CV text;
  - `get_answer_for_question`, the ordered chain of rules that answers any
    label.
- **Form filler** (`ApplierKeys`, `ApplierFields`, `ApplierChoices`). It
  covers:
  - question keys and the configured form answers;
  - text inputs, with their decimal, whole-number and length rules;
  - dropdowns;
  - checkboxes;
  - custom option blocks;
  - native radio groups.
- **Wizard** (`ApplierWizard`). It covers the contact step and its
  Next/Verify/Submit loop, and the answers-driven form flow.

Python string operations are written out in `Text`: `lower`, `strip`,
whitespace collapsing, `in` on strings and splitting. The configuration is one
`Config.Profile` value, and `Config.Defaults` holds its shipped defaults.
Language-model replies are modelled as `Llm` values (primary reply, secondary
reply) and passed in. The PDF pages are passed in as well.

Loops that the source runs over the page's fields become methods. Each such
method is proved equal to a recursive specification function over the prefix
of its input. The properties are then proved about that function: each custom
question is answered once, each radio group is decided once, and the resume is
uploaded at most once.

## Model

| member | source | states |
|---|---|---|
| ExperienceMap.YearsForQuestion | experience_map.py:88-109 | an empty label gets no answer; any answer is one of the tiers 2, 3 or 4 (the tiers themselves are stated by TotalWins, JavaTierWins, PrimaryTier and OtherTier) |
| ExperienceMap.PrimaryTier | experience_map.py:91-107 | a years or experience label naming a common-stack technology, with no Java-tier token and no "total", gets the middle tier 3 |
| ExperienceMap.OtherTier | experience_map.py:91-109 | a years or experience label naming no listed technology and no "total" gets the lowest tier 2 |
| ExperienceMap.IsYesNoExperienceQuestion | experience_map.py:112-122 | an empty label, or one asking "how many … years", is never a Yes/No question |
| ExperienceMap.YesNoForExperience | experience_map.py:125-134 | there is an answer exactly for Yes/No experience questions, and it is always "Yes" because every tier is above zero |
| ExperienceMap.YearsNeedTrigger | experience_map.py:96-97 | a label mentioning none of year/years/année/expérience/experience gets no years |
| ExperienceMap.TotalWins | experience_map.py:99-100 | a "total" question mentioning year or experience gets the total default (3), before any technology |
| ExperienceMap.JavaTierWins | experience_map.py:101-103 | a Java-core technology in a years label gives 4, ahead of the 3-year list |
| ExperienceMap.JavaScriptCountsAsJava | experience_map.py:18-23 | because "java" is matched as a substring, "javascript" years questions get the Java-core 4 |
| ExperienceMap.FrenchOnlyTriggerGivesNone | experience_map.py:96-109 | a label triggered only by "année"/"expérience" and naming no listed technology falls through to None |
| ExperienceMap.YearsIgnoreCaseAndSpacing | experience_map.py:84-85 | the years answer depends only on the lower-cased, whitespace-collapsed label |
| ExperienceMap.YesNoIgnoresCaseAndSpacing | experience_map.py:84-85 | the Yes/No classification depends only on the normalised label |
| ExperienceMap.HowManyYearsIsNotYesNo | experience_map.py:117-118 | "how many … years" questions never get a Yes/No answer |
| WorkAuthorization.IsWorkAuthorizationQuestion | work_authorization.py:52-66 | an empty label is not an authorisation question; a label matching any authorisation pattern is |
| WorkAuthorization.WorkAuthorizationAnswer | work_authorization.py:69-93 | the answer is None or one of the two configured answers; an empty label gets None; a label matching a sponsorship rule gets the sponsorship answer |
| WorkAuthorization.AuthorizationAnswerExactly | work_authorization.py:78-93 | when the two configured answers differ, the authorisation answer comes back iff no sponsorship rule fires and the label is an authorisation question |
| WorkAuthorization.SponsorshipBeatsAuthorization | work_authorization.py:78-82 | a label that is both an authorisation and a sponsorship question gets the sponsorship answer |
| WorkAuthorization.SponsorshipKeywordRule | work_authorization.py:84-85 | "sponsorship" together with "require", "need" or "future" gives the sponsorship answer |
| WorkAuthorization.ListedCountryRule | work_authorization.py:61-63 | a listed country named together with work/authorized/citizen/resid makes an authorisation question |
| WorkAuthorization.ConfiguredCountryRule | work_authorization.py:57-65 | the hinted or configured country, together with a work keyword, makes an authorisation question |
| WorkAuthorization.EmptyCountryMatchesAnyKeywordLabel | work_authorization.py:57-65 | with no country configured, the empty country is "in" every label, so any label with a work keyword is an authorisation question |
| WorkAuthorization.NothingFiresOnEmpty | work_authorization.py:16-45 | no pattern, sponsorship rule or work keyword matches the empty text |
| WorkAuthorization.BlankLabelGetsNoAnswer | work_authorization.py:75-93 | a label that is only whitespace gets no answer |
| WorkAuthorization.AnswerIgnoresCaseAndSpacing | work_authorization.py:48-49 | the answer depends only on the normalised label |
| WorkAuthorization.SameNormalFormSameAnswer | work_authorization.py:48-77 | two labels with the same normal form get the same answer |
| GeminiCv.ReplyText | gemini_cv.py:28-44 | the usable reply is non-empty; it is the primary reply when that one is non-empty, else the secondary one, else nothing |
| GeminiCv.SecondaryOnlyWithoutPrimary | gemini_cv.py:64-65 | the secondary reply is used only when the primary one is missing or empty |
| GeminiCv.IntegerPart | gemini_cv.py:69 | the part before the first dot has no dot and starts the number |
| GeminiCv.SalaryExpectation | gemini_cv.py:47-70 | the salary is all digits. It is the default 95000 when there is no reply, when the reply has no digits or dots, or when neither its integer part nor its whole filtered text is all digits. When the filtered reply is non-empty and its integer part is all digits, the salary is that integer part ("$120,000.00" gives 120000). Any other salary is the integer part or the whole of the filtered reply |
| GeminiCv.SalaryFromDigits | gemini_cv.py:68-69 | the choice on the filtered reply is all digits: the integer part when that is all digits, 95000 when neither the integer part nor the whole text is all digits |
| GeminiCv.SalaryOfFiltered | gemini_cv.py:66-69 | the salary is computed from the reply reduced to its digits and dots |
| GeminiCv.SalaryOfDigits | gemini_cv.py:66-69 | a reply that is all digits is returned unchanged |
| GeminiCv.SalaryOfDecimal | gemini_cv.py:68-69 | a reply "a.b" of digits gives its integer part a |
| GeminiCv.SalaryOfNumber | gemini_cv.py:66-69 | the decimal rendering of any natural number reads back as itself |
| GeminiCv.CleanOptions | gemini_cv.py:79 | stripping and dropping blank options never lengthens the list and leaves no empty option |
| GeminiCv.CleanOptionsFromOptions | gemini_cv.py:79 | every cleaned option is the strip of an original option |
| GeminiCv.CleanOptionsOfClean | gemini_cv.py:79 | a list of non-empty, already stripped options is left as it is |
| GeminiCv.FirstMatching | gemini_cv.py:110-112 | an option equal to, containing or contained in the chosen text, case-insensitively, with no matching option before it; none when no option matches |
| GeminiCv.AnswerFromOptions | gemini_cv.py:73-113 | None exactly when no clean option exists; otherwise an option of the list, and the first one when there is no reply |
| GeminiCv.AnswerFromOptionsMatchesReply | gemini_cv.py:109-112 | when some option matches the unquoted reply, the answer matches it too |
| GeminiCv.AnswerFromOptionsFallsBackToFirst | gemini_cv.py:113 | when no option matches the reply, the first option is returned |
| GeminiCv.YearsFromCv | gemini_cv.py:151-194 | an empty question or a CV under 30 characters gets nothing; an answer is one or two digits, without a leading zero |
| GeminiCv.YearsFromCvReadsBack | gemini_cv.py:189-194 | the answer is the decimal rendering of the number read from the reply's digits |
| GeminiCv.ShortAnswer | gemini_cv.py:145-148 | an answer is a non-empty prefix of the unquoted reply, no longer than the limit |
| GeminiCv.ShortAnswerKeepsShortReply | gemini_cv.py:145-147 | a reply within the limit is returned whole |
| GeminiCv.AnyQuestionAnswer | gemini_cv.py:116-148 | a blank question gets nothing; an answer respects the length limit |
| GeminiCv.CvAnswer | gemini_cv.py:197-239 | there is no answer when the CV option is off, the question is blank or the CV is under 50 characters; an answer respects the length limit |
| SkillExtraction.DropQuestionTail | cv_reader.py:55-60 | removing the trailing question marks and star leaves a prefix of the text |
| SkillExtraction.CandidateAfter | cv_reader.py:51-55 | a separator yields a candidate exactly when it occurs in the lower-cased text |
| SkillExtraction.FirstFit | cv_reader.py:51-57 | the chosen text has 3 to 149 characters and is the candidate of one of the separators |
| SkillExtraction.SplitParts | cv_reader.py:67 | splitting on the conjunctions, commas and slashes yields at least one piece |
| SkillExtraction.CleanPiecesArePhrases | cv_reader.py:69-73 | every kept piece has 2 to 59 characters and is lower-case |
| SkillExtraction.Kept | cv_reader.py:68-73 | the kept phrases are never more than the pieces |
| SkillExtraction.DedupeMembers | cv_reader.py:75-80 | deduplication keeps exactly the same members, each once |
| SkillExtraction.DedupePrefix | cv_reader.py:75-80 | deduplicating a prefix gives a prefix of the deduplicated list (first occurrences win) |
| SkillExtraction.FallbackWords | cv_reader.py:82-85 | the fallback words are longer than two characters |
| SkillExtraction.FallbackWordsLowered | cv_reader.py:85 | the fallback words are lower-case |
| SkillExtraction.SkillPhrases | cv_reader.py:40-86 | a blank question has no phrases; there are never more than 15 |
| SkillExtraction.SkillPhrasesShape | cv_reader.py:69-86 | every phrase is lower-case with at least two characters; phrases from the split text are distinct and shorter than 60 |
| SkillExtraction.ChooseRest | cv_reader.py:51-60 | the separator loop with its `for … else` computes the text after the first usable separator |
| SkillExtraction.FindFit | cv_reader.py:51-57 | the loop stops at the first separator whose candidate fits, as specified |
| SkillExtraction.CleanAll | cv_reader.py:68-73 | the cleaning loop builds the phrase list of the pieces |
| SkillExtraction.KeepAll | cv_reader.py:68-73 | the loop keeps each piece's cleaned form, in order, for any cleaning step |
| SkillExtraction.DedupeAll | cv_reader.py:75-80 | the loop with its `seen` set builds the deduplicated list |
| SkillExtraction.KeepWords | cv_reader.py:82-85 | the fallback loop keeps the words the fallback list names |
| SkillExtraction.ExtractSkillPhrases | cv_reader.py:40-86 | the whole extraction returns the specified phrases |
| CvReader.ListEntries | cv_reader.py:99 | the configured skill list has no empty entries |
| CvReader.SkillMentionedInCv | cv_reader.py:89-112 | a question with no extractable skill counts as mentioned; otherwise some phrase must match the configured list or the CV, with spaces ignored for phrases over three characters |
| CvReader.PhraseInCvIsMentioned | cv_reader.py:105-109 | a phrase found in the lower-cased CV makes the skill mentioned |
| CvReader.NothingToSearch | cv_reader.py:94-112 | with no CV and no list, a skill counts as mentioned iff no phrase was extracted |
| CvReader.FirstWord | cv_reader.py:121 | the first word starts the text, has no whitespace and ends at whitespace or at the end |
| CvReader.HasCertification | cv_reader.py:115-134 | a blank name is never held; otherwise the name's first word in the CV, or a configured entry related to it, makes it held |
| CvReader.ListedCertificationIsHeld | cv_reader.py:129-133 | a certification listed verbatim in the configuration is held |
| CvReader.CertificationName | cv_reader.py:137-153 | a name is extracted only from labels with a certificate/permit/licence keyword, and is non-empty unless the label is blank |
| CvReader.JoinPages | cv_reader.py:168-171 | the joined text has at least one character for each boundary between pages (the newline separators) |
| CvReader.LastPageEndsText | cv_reader.py:168-171 | the last page's text ends the joined CV text |
| CvReader.CvCache.constructor | cv_reader.py:37 | the cache starts empty |
| CvReader.CvCache.LoadCvText | cv_reader.py:156-175 | a cached text is returned unchanged; a missing path, file, PDF reader or readable PDF gives "" and caches nothing; otherwise the joined pages are returned and cached |
| CvReader.HybridAnswer | cv_reader.py:216-225 | the hybrid answer is "Yes" or "No", and "No" exactly when the configured value is a negative word |
| CvReader.CertificationAnswer | cv_reader.py:253-259 | there is an answer exactly for certification questions, and it is "Yes" exactly when the certification is held |
| CvReader.DefaultYears | cv_reader.py:262-283 | the configured years default becomes a whole number |
| Text.ParseIntDigits | cv_reader.py:280-283 | `int()` reads plain digits, after stripping, as their value |
| Text.ParseIntSkipsUnderscores | cv_reader.py:280-283 | for any digit strings a and b, `int(a + "_" + b)` reads as `int(a + b)` |
| Text.ParseIntRefusesDoubleUnderscore | cv_reader.py:280-283 | for any digit strings a and b, `int(a + "__" + b)` is refused, so the default "3" is used |
| CvReader.YearsAnswer | cv_reader.py:262-283 | there is an answer exactly for "years … experience" labels that are not rating fields |
| CvReader.YearsAnswerIsWhole | cv_reader.py:262-283 | that answer is always a whole number |
| CvReader.MissingSkillGivesZeroYears | cv_reader.py:266-270 | a "how many" question about a skill neither in the CV nor in the list gets "0" |
| CvReader.YesNoAnswer | cv_reader.py:286-292 | there is an answer exactly for Yes/No experience questions; it is "No" exactly when the skill is not mentioned |
| CvReader.TableOrCvYears | cv_reader.py:295-303 | a technology known to the table gets its tier; any answer is a whole number |
| CvReader.RatingAnswer | cv_reader.py:306-315 | a short rating label gets "8.0" or "5.0", and only such labels get an answer |
| CvReader.AiAnswer | cv_reader.py:318-327 | without the CV option there is no answer; any answer fits the 100-character limit |
| CvReader.FallbackAnswer | cv_reader.py:330-344 | the fallback is never empty; a years-like label gets a whole number, any other label gets one of "Yes", "1", "5.0" or "N/A" |
| CvReader.AnswerForQuestion | cv_reader.py:178-344 | the resolver answers every label that is not blank, and only those |
| CvReader.WorkAuthorizationComesFirst | cv_reader.py:192-194 | a work-authorisation answer takes precedence over every other rule |
| CvReader.SurroundingSpaceIgnored | cv_reader.py:188-189 | surrounding whitespace does not change the answer |
| CvReader.YearsQuestionGetsWholeNumber | cv_reader.py:262-283 | a years-of-experience question that reaches rule 6 gets a whole number |
| CvReader.TableBeatsRating | cv_reader.py:295-315 | a technology known to the table is answered from the table before any rating rule |
| CvReader.DefaultsFilled | config.py:63-72 | the shipped defaults are usable resolver inputs |
| CvReader.AnswerNeverEmpty | cv_reader.py:178-344 | with usable profile values, every answer is non-empty |
| ApplierKeys.NormalizeQuestionKey | applier.py:77-91 | an empty label gives an empty key; any years wording gives the years key; keys have at most 80 characters |
| ApplierKeys.PlainLabelKey | applier.py:81-91 | a label that names no canonical topic is keyed by its normal form, cut to 80 characters |
| ApplierKeys.PlainKeyShape | applier.py:81-91 | such a key is lower-case, with single spaces and no surrounding space |
| ApplierKeys.KeyIgnoresCaseAndSpacing | applier.py:77-91 | labels with the same normal form get the same key |
| ApplierKeys.Lookup | applier.py:96-97 | a lookup finds nothing iff no entry has the key, and otherwise returns a value stored under it |
| ApplierKeys.FirstRelated | applier.py:99-101 | finds nothing iff no key relates to the label by containment; otherwise returns a related entry's value |
| ApplierKeys.FindAnswer | applier.py:94-102 | the value under the label's key comes first |
| ApplierKeys.FinalLookupsFindNothing | applier.py:102 | the last two `get` calls never find anything that the containment search missed |
| ApplierKeys.FindAnswerCases | applier.py:94-102 | the lookup is: the key's entry, else the first related entry, else nothing |
| ApplierKeys.HasValidationErrors | applier.py:957-969 | the modal shows errors iff its text could be read and it names an error phrase or some element is marked invalid |
| ApplierKeys.FrenchPromptIsAnError | applier.py:65-75 | "veuillez saisir" alone is enough to count as an error |
| ApplierKeys.ConsentCheckboxExactly | applier.py:455-472 | an unticked checkbox is ticked as consent exactly when its text mentions a consent keyword, so "I agree" is enough |
| ApplierKeys.CheckboxGroupChoice | applier.py:481-502 | the pick is a valid index: the first option naming LinkedIn when there is one, else the random index |
| ApplierFields.RatingDefault | applier.py:295-296 | a rating default is "8.0" or "5.0" |
| ApplierFields.ParseDecimal | applier.py:307-309 | a parsed decimal has digit-only parts and prints back to the parsed text |
| ApplierFields.ParseDecimalText | applier.py:307-309 | every well-formed decimal parses back to itself |
| ApplierFields.ParseUnsigned | applier.py:307-309 | the part after the sign parses to digit-only parts that print back to it, keeping the given sign |
| ApplierFields.ParseUnsignedText | applier.py:307-309 | every well-formed unsigned decimal parses back to itself |
| ApplierFields.DecimalStep | applier.py:304-315 | a rating field ends with the rating default or with a decimal of at least 0.1; other fields are untouched |
| ApplierFields.WholeStep | applier.py:316-321 | a years field holding a number ends with a whole number; anything else is untouched |
| ApplierFields.Repeat | applier.py:345 | repeating a text k times multiplies its length by k |
| ApplierFields.NonePadding | applier.py:344-345 | the "none" padding is exactly as long as the field's limit |
| ApplierFields.PaddingStep | applier.py:322-345 | a text or textarea field whose text is "none" in any case, under a declared limit larger than the text, gets the "none none …" padding of exactly the limit's length. Any other field or text is left as it is, and any change is that padding |
| ApplierFields.PaddingFillsLimit | applier.py:344-345 | the padding is a prefix of the repeated "none " text, of exactly the limit's length |
| ApplierFields.InitialAnswer | applier.py:294-300 | a usable answer is kept. A missing answer becomes the rating default for rating labels, "3" or "0" for number fields, and "none" for text |
| ApplierFields.TextInputValue | applier.py:286-345 | a non-number field is never left empty |
| ApplierFields.RatingFieldGetsDecimal | applier.py:304-315 | a rating field always receives a decimal of at least 0.1 |
| ApplierFields.DecimalStepAcceptable | applier.py:304-315 | in a rating field the decimal step always leaves a decimal of at least 0.1 |
| ApplierFields.DecimalSurvivesLaterSteps | applier.py:316-345 | the whole-number and padding steps leave an acceptable rating unchanged |
| ApplierFields.RatingDefaultAcceptable | applier.py:295-315 | the rating defaults pass the decimal check and are already lower-case |
| ApplierFields.NoneIsNotDecimal | applier.py:300-345 | a decimal is never the "none" fallback, so padding cannot undo the decimal rule |
| ApplierFields.YearsFieldGetsWholeNumber | applier.py:316-321 | a years field with a numeric answer receives a whole number |
| ApplierFields.WholeIsNotNone | applier.py:316-345 | a whole number is never the "none" fallback |
| ApplierFields.FillFor | applier.py:265-276 | a field is filled iff it is required and holds no value yet |
| ApplierFields.FillWith | applier.py:265-276 | a field is filled iff it is required and holds no value yet, and then with the computed value |
| ApplierFields.FillAllAt | applier.py:263-348 | the i-th fill is what the loop does with the i-th field |
| ApplierFields.FillTextInputs | applier.py:263-348 | the text-input loop computes the specified fills |
| ApplierFields.FillEach | applier.py:263-348 | the loop computes the specified fills for any way of computing a field's value |
| ApplierFields.FilledTextIsNonEmpty | applier.py:286-345 | a non-number field is always typed something |
| ApplierFields.RealOptions | applier.py:389-396 | collected options are stripped raw options, non-empty and not placeholders |
| ApplierFields.CollectOptionTexts | applier.py:389-396 | the collecting loop computes the real options |
| ApplierFields.RealOptionsAreClean | applier.py:389-396 | collected options are non-empty, not placeholders and already stripped |
| ApplierFields.FirstLegalStatusOption | applier.py:409-414 | a legal-status option found is in the list and among the known statuses; none found means the list has none |
| ApplierFields.SelectAnswer | applier.py:406-414 | for a Canadian legal-status label with such an option, the answer is that option; other labels keep the resolver's answer |
| ApplierFields.Matches | applier.py:416-417 | the matching options are exactly those equal to, containing or contained in a non-empty answer |
| ApplierFields.FirstOptionReading | applier.py:419-426 | a found option reads as the word once stripped and lower-cased; none found means no option does |
| ApplierFields.OuiNonOption | applier.py:418-426 | a "yes" answer picks an "oui" option and a "no" answer a "non" option, and nothing else does |
| ApplierFields.ChooseOption | applier.py:416-434 | the pick is one of the options: the first match, else Oui/Non, else the model's pick |
| ApplierFields.CleanListIsClean | applier.py:427-428 | the model helper sees exactly the collected options |
| ApplierFields.SelectChoice | applier.py:399-434 | a required dropdown always gets one of its own options |
| ApplierFields.LegalStatusPicksNoStatus | applier.py:409-417 | for the Canadian legal-status question, the option picked matches the legal-status option found |
| ApplierFields.ExactAnswerIsSelected | applier.py:416-417 | when an option equals the answer, the option picked matches the answer |
| ApplierFields.SelectValue | applier.py:368-435 | a filled dropdown's value is one of its real options |
| ApplierFields.PickFor | applier.py:368-398 | a dropdown is filled iff it is required, has no selection and has real options, and then with a real option |
| ApplierFields.PickAllAt | applier.py:368-453 | the i-th pick is made iff the i-th dropdown needs filling, and is one of its options |
| ApplierFields.PickAllIs | applier.py:368-453 | the i-th pick of the loop is the pick made for the i-th dropdown alone |
| ApplierFields.FillSelect | applier.py:368-453 | one dropdown is handled as specified |
| ApplierFields.FillSelects | applier.py:368-453 | the dropdown loop computes the specified picks |
| ApplierChoices.BlockKey | applier.py:535-536 | the remembered key is a prefix of the stripped question, at most 100 characters long |
| ApplierChoices.BlockLabels | applier.py:543-545 | a block with a value always has a label to click |
| ApplierChoices.FirstMentioning | applier.py:547-556 | the label found mentions a keyword; none found means no label does |
| ApplierChoices.FirstYesLabel | applier.py:557-563 | the label found reads yes/oui and is not a "no"; none found means no label does |
| ApplierChoices.TargetLabel | applier.py:547-565 | the target is one of the labels: a relocation label for location questions, else a Yes label, else the first label |
| ApplierChoices.FixedAnswer | applier.py:567-572 | right-to-work questions about Canada or the country without sponsorship are fixed to "No". Questions needing or requiring visa sponsorship are fixed to "Yes", and so are background-check questions outside the right-to-work rule. There is no fixed answer exactly when none of the three rules applies |
| ApplierChoices.CustomOptionValueAsWritten | applier.py:567-578 | as written, the clicked value is "Yes", "No" or a label of the block, and any other value is the target label. A target label "Yes" is clicked whatever the fixed answer says |
| ApplierChoices.TargetValueAsWritten | applier.py:576-578 | the clicked value as written is "Yes", "No" or the target label |
| ApplierChoices.CustomOptionValue | applier.py:567-578 | corrected: where the fixed answer is "No", the click is the first label reading no ("No" when none does) and never a label reading yes; every other block gets the value as written. The click is always "Yes", "No" or a label |
| ApplierChoices.RightToWorkAnsweredYes | applier.py:567-578 | as written, any readable block with labels Yes/No whose lower-cased question has "right to work" and "canada" but not "sponsorship" clicks "Yes" although its fixed answer is "No"; the corrected value is "No" |
| ApplierChoices.YesTargetClicksYes | applier.py:567-578 | as written, a target label "Yes" makes the click "Yes" whatever the answer |
| ApplierChoices.SeenAfterIsRequiredKeys | applier.py:533-541 | the remembered questions are exactly the keys of the readable required blocks |
| ApplierChoices.CustomRunAt | applier.py:527-684 | each block is answered iff it is readable, required and its question was not answered earlier; the click is the corrected value |
| ApplierChoices.CustomAnswersOncePerQuestion | applier.py:535-541 | once a question is answered, later blocks with the same question are skipped |
| ApplierChoices.OptionalBlockIsNotRemembered | applier.py:539-541 | optional blocks are never remembered |
| ApplierChoices.FillCustomOptions | applier.py:527-684 | the custom-option loop computes the specified clicks, with the corrected value, and the remembered questions |
| ApplierChoices.RadioAnswer | applier.py:786-805 | for a non-blank question, the answer is the resolver's |
| ApplierChoices.RadioQuestion | applier.py:788-790 | the resolver is asked the stripped group label when it has text, else the stripped block text |
| ApplierChoices.RightToWorkSponsorshipGroup | applier.py:724-759 | a right-to-work question that needs sponsorship, without "authorized" or "travailler", is not a work-authorisation group but a sponsorship group |
| ApplierChoices.RadioDecision | applier.py:711-722 | an input not marked required is left alone, and so is a named group that is already checked |
| ApplierChoices.WorkAuthorizationGroupFollowsConfig | applier.py:711-754 | a required (star in the block or group label, or aria-required) and unanswered work-authorisation group is set from the configured answer (default "No") |
| ApplierChoices.SponsorshipGroupFollowsConfig | applier.py:711-785 | a required (star in the block or group label, or aria-required) and unanswered sponsorship group is set from the configured sponsorship answer (default "Yes") |
| ApplierChoices.AnswerDrivenRadio | applier.py:786-854 | any other required, unanswered group follows the resolver's answer: yes/no/oui/non sets the group (Yes for yes or oui), and any other answer checks this input exactly when the answer and the option label contain one another |
| ApplierChoices.DefaultsAnswerNoThenYes | config.py:71-72 | with the shipped defaults, authorisation groups get No and sponsorship groups get Yes |
| ApplierChoices.NamesOf | applier.py:700-722 | the seen names are exactly the names of the named inputs |
| ApplierChoices.RadioRunAt | applier.py:699-856 | each input is left if its group was seen earlier, else decided |
| ApplierChoices.GroupDecidedOnce | applier.py:700-705 | a later input of an already seen group is left alone |
| ApplierChoices.FillRadios | applier.py:699-856 | the radio loop computes the specified actions and seen names |
| ApplierWizard.WizardFailsOnlyOnErrors | applier.py:901-923 | the step loop fails exactly when a reached iteration shows a validation error |
| ApplierWizard.NoErrorsMeansApplied | applier.py:872-923 | with the modal open, a started wizard and no errors in any iteration, the contact flow reports success |
| ApplierWizard.ContactFlowOutcome | applier.py:872-923 | the contact flow succeeds exactly when the modal is shown and either a submit button is there at the start, or the Next click works and no reached iteration shows a validation error |
| ApplierWizard.FillContactAndClickNext | applier.py:872-923 | the contact flow returns its specified outcome |
| ApplierWizard.FieldAct | applier.py:175-197 | a field gets the upload iff it is a file field, the resume is ready and not yet used; a fill needs a non-empty configured answer |
| ApplierWizard.UsedAfter | applier.py:147-182 | the resume is used after a step iff it was used before or the step has a file field and a ready resume |
| ApplierWizard.StepActionsAt | applier.py:150-197 | each field's action is decided with the resume state left by the fields before it |
| ApplierWizard.UploadAtMostOnce | applier.py:147-182 | no two fields of a step both get the upload |
| ApplierWizard.FormSucceedsOnlyBySubmit | applier.py:204-215 | the form flow succeeds only if some step shows a submit button |
| ApplierWizard.FillStep | applier.py:150-199 | one step's loop computes the specified actions, resume state and whether anything was filled |
| ApplierWizard.FormFlowOutcome | applier.py:135-215 | the form flow succeeds only with the modal shown and some step showing a submit button; a submit button on the first step is enough |
| ApplierWizard.FillEasyApplyForm | applier.py:135-215 | the answers-driven form flow returns its specified outcome |

## Left out

- Browser automation is not modelled: clicks, selector fallbacks, the
  JavaScript extractors, waits, scrolling, the location typeahead after the
  city is filled, and closing or discarding the modal. What the page shows is
  passed in as data (fields, options, radio inputs, modal observations).
- The network calls to Gemini and Groq are not modelled. Their replies are
  inputs, and the Gemini reply with its Groq fallback counts as one `Llm`
  value (primary, secondary). Each text field, dropdown and radio input
  carries the replies to its own prompts.
- PDF extraction is not modelled: the pages' texts are inputs. The CV text is
  one value per resolver call.
- Exceptions raised by the page or the PDF reader are not modelled, except
  where the source turns them into a value (`None` for an unreadable modal
  text).
- ApplierKeys.CheckboxGroupChoice: the `random.choice` is an input index.
- The `random.choice` among dropdown options is not modelled. The options
  helper returns an option whenever the collected list is non-empty, so it is
  never reached.
- The open-question call made for text inputs and dropdowns after the resolver
  is not modelled. The resolver answers every non-blank label, so that call is
  never reached.
- ApplierChoices.RadioAnswer: the open-question call on a question that is
  non-empty but only whitespace is taken to return nothing, as the helper
  does for blank questions.
- Floating-point rounding is not modelled. The decimal grammar is handled
  exactly. `float(x) < 0.1` and `int(float(x))` are computed on the digits.
- CvReader.DefaultYears: non-ASCII decimal digits, which `int()` accepts, are
  not read, so such a configured default gives "3".
- Unicode is handled only in part. `lower()` covers ASCII and Latin-1,
  `\d` covers ASCII digits, and changes of string length under `lower()` are
  not modelled.
- A text field's `maxlength`, read from the page's attributes or helper text,
  is an input.
- `_fill_input` and `run_easy_apply_flow` are thin wrappers around the modelled
  flows, so they are not modelled.
- ApplierWizard.FillContactAndClickNext: the effect of the additional-questions
  filler on later page observations is an input (`obs`), not computed from the
  filler.
- Consent checkboxes (applier.py:455-479) are modelled only as the predicate
  `ApplierKeys.IsConsentCheckbox` and the lemma about it. Ticking them has
  no other logic.
- ApplierChoices.FillCustomOptions: the loop clicks the corrected value
  (`CustomOptionValue`), not the value as written. The two differ only on
  blocks whose fixed answer is "No" (right-to-work questions): there the loop
  clicks the first label reading no, and the code clicks its Yes choice, so
  for labels Yes and No the code clicks "Yes" and the loop "No" (see
  Findings). A label reading no is one starting with "no" or "non" that does
  not read yes.
- ApplierChoices.RadioQuestion: the contract does not state the last
  fallback, the option's own label when the group label and block text are
  blank.
- In dropdowns, the legal-status override can still be matched to a different
  option by the substring rule. The model keeps that behaviour.

## Findings

| source | as written | input that shows it | evidently intended | confidence | as-written member | corrected member |
|---|---|---|---|---|---|---|
| applier.py:567-578 | the clicked value is derived from the target label, so the fixed "No" for right-to-work questions is replaced by "Yes" whenever the target label reads yes | question "right to work in canada *", required, labels ["Yes", "No"] | the fixed "No" decides the click: the label reading no ("No") | not executed | ApplierChoices.RightToWorkAnsweredYes | ApplierChoices.CustomOptionValue |
