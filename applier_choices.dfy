/**
 * The choices `_fill_additional_questions` makes among options it clicks:
 * LinkedIn's custom option blocks (one choice per question) and native
 * radio buttons (one decision per radio group).
 */
module ApplierChoices {
  import opened Wrappers
  import opened Text
  import opened Config
  import opened GeminiCv
  import opened CvReader

  // ---------------------------------------------------------------------------
  // Custom option blocks

  /** One custom option element, as read from the page together with its block. */
  datatype OptionBlock = OptionBlock(
    question: string,         // the block's trimmed text, cut to 250 characters
    value: string,            // this option's label
    required: bool,           // a star in the block, or a required marker inside it
    allLabels: seq<string>)   // the non-empty, trimmed labels of every option in the block

  /** The block is read at all: it has both a question and a value. */
  predicate Readable(b: OptionBlock) {
    b.question != "" && b.value != ""
  }

  /** The key remembered for a question: its first 100 characters. */
  function BlockKey(b: OptionBlock): (r: string)
    ensures |r| <= 100 && StartsWith(Strip(b.question), r)
  {
    Take(Strip(b.question), 100)
  }

  /** The labels the choice is made among: every option's, or this option's when none were read. */
  function BlockLabels(b: OptionBlock): (r: seq<string>)
    ensures b.value != "" ==> r != []
  {
    if b.allLabels != [] then b.allLabels else [b.value]
  }

  const LocationKeywords: seq<string> := [
    "montreal", "quebec", "situé", "eligible", "déménager", "relocat", "relocation",
    "province", "full time", "located", "work full time"
  ]

  const RelocationKeywords: seq<string> := ["relocat", "déménager", "open to"]

  const BackgroundKeywords: seq<string> := [
    "criminal background", "background check", "employment verification",
    "reference check", "education check", "agree to partake"
  ]

  /** The first label mentioning one of `keys`. */
  function FirstMentioning(labels: seq<string>, keys: seq<string>): (r: Option<string>)
    ensures r.Some? ==> r.value in labels && AnyOccurs(keys, Lower(r.value))
    ensures r.None? ==> forall l :: l in labels ==> !AnyOccurs(keys, Lower(l))
  {
    if labels == [] then None
    else if AnyOccurs(keys, Lower(labels[0])) then Some(labels[0])
    else FirstMentioning(labels[1..], keys)
  }

  /** A label that reads as Yes: it contains yes or oui and is neither "no" nor a "no/…" pair. */
  predicate YesLabel(l: string) {
    var ll := Strip(Lower(l));
    (Occurs("yes", ll) || Occurs("oui", ll)) && ll != "no" && !StartsWith(ll, "no/")
  }

  /** The first Yes label. */
  function FirstYesLabel(labels: seq<string>): (r: Option<string>)
    ensures r.Some? ==> r.value in labels && YesLabel(r.value)
    ensures r.None? ==> forall l :: l in labels ==> !YesLabel(l)
  {
    if labels == [] then None
    else if YesLabel(labels[0]) then Some(labels[0])
    else FirstYesLabel(labels[1..])
  }

  /**
   * The preferred label: for a location question, the first offering to
   * relocate; otherwise the first Yes label; otherwise the first label.
   */
  function TargetLabel(questionLower: string, labels: seq<string>): (r: string)
    requires labels != []
    ensures r in labels
    ensures AnyOccurs(LocationKeywords, questionLower) && FirstMentioning(labels, RelocationKeywords).Some?
            ==> r == FirstMentioning(labels, RelocationKeywords).value
    ensures FirstYesLabel(labels).Some? && !(AnyOccurs(LocationKeywords, questionLower) && FirstMentioning(labels, RelocationKeywords).Some?)
            ==> r == FirstYesLabel(labels).value
    ensures FirstYesLabel(labels).None? && !(AnyOccurs(LocationKeywords, questionLower) && FirstMentioning(labels, RelocationKeywords).Some?)
            ==> r == labels[0]
  {
    if AnyOccurs(LocationKeywords, questionLower) && FirstMentioning(labels, RelocationKeywords).Some? then
      FirstMentioning(labels, RelocationKeywords).value
    else if FirstYesLabel(labels).Some? then FirstYesLabel(labels).value
    else labels[0]
  }

  /** The answers fixed by the question alone: No to the right to work, Yes to visa sponsorship and to background checks. */
  function FixedAnswer(questionLower: string): (r: Option<string>)
    ensures r.Some? ==> r.value in ["Yes", "No"]
    ensures (Occurs("right to work", questionLower) && (Occurs("canada", questionLower) || Occurs("country", questionLower))
             && !Occurs("sponsorship", questionLower)) ==> r == Some("No")
    ensures (Occurs("sponsorship", questionLower) && Occurs("visa", questionLower)
             && (Occurs("require", questionLower) || Occurs("need", questionLower))) ==> r == Some("Yes")
    ensures AnyOccurs(BackgroundKeywords, questionLower) && !Occurs("right to work", questionLower) ==> r == Some("Yes")
    ensures (AnyOccurs(BackgroundKeywords, questionLower) && !Occurs("sponsorship", questionLower)
             && !(Occurs("right to work", questionLower) && (Occurs("canada", questionLower) || Occurs("country", questionLower))))
            ==> r == Some("Yes")
    ensures r.None? <==> !(Occurs("right to work", questionLower) && (Occurs("canada", questionLower) || Occurs("country", questionLower))
                             && !Occurs("sponsorship", questionLower))
                         && !(Occurs("sponsorship", questionLower) && Occurs("visa", questionLower)
                              && (Occurs("require", questionLower) || Occurs("need", questionLower)))
                         && !AnyOccurs(BackgroundKeywords, questionLower)
  {
    if Occurs("right to work", questionLower) && (Occurs("canada", questionLower) || Occurs("country", questionLower))
       && !Occurs("sponsorship", questionLower) then Some("No")
    else if Occurs("sponsorship", questionLower) && Occurs("visa", questionLower)
            && (Occurs("require", questionLower) || Occurs("need", questionLower)) then Some("Yes")
    else if AnyOccurs(BackgroundKeywords, questionLower) then Some("Yes")
    else None
  }

  /** The answer the block settles on: the fixed answer, else the target label. */
  function BlockAnswer(questionLower: string, target: string): string {
    if FixedAnswer(questionLower).Some? then FixedAnswer(questionLower).value else Strip(target)
  }

  /**
   * The value clicked, as the code is written: Yes when the answer or the
   * target label says yes or oui, else No; and any target label other than
   * Yes or No replaces that. The answer only counts when the target label
   * has no yes in it.
   */
  function TargetValueAsWritten(answer: string, target: string): (r: string)
    ensures r == "Yes" || r == "No" || r == target
  {
    var v := if Lower(answer) in ["yes", "oui"] || (target != "" && (Occurs("yes", Lower(target)) || Occurs("oui", Lower(target))))
             then "Yes" else "No";
    if target != "" && target !in ["Yes", "No"] then target else v
  }

  /** The value clicked for a readable block, as written. */
  function CustomOptionValueAsWritten(b: OptionBlock): (r: string)
    requires Readable(b)
    ensures r in ["Yes", "No"] || r in BlockLabels(b)
    ensures r !in ["Yes", "No"] ==> r == TargetLabel(Lower(Strip(b.question)), BlockLabels(b))
    ensures TargetLabel(Lower(Strip(b.question)), BlockLabels(b)) == "Yes" ==> r == "Yes"
  {
    var ql := Lower(Strip(b.question));
    var target := TargetLabel(ql, BlockLabels(b));
    YesTargetClicksYes(BlockAnswer(ql, target));
    TargetValueAsWritten(BlockAnswer(ql, target), target)
  }

  /** A label that reads as a refusal: it starts with "no" (so "non" too) and does not read yes. */
  predicate NoLabel(l: string) {
    StartsWith(Strip(Lower(l)), "no") && !YesLabel(l)
  }

  /** The first label that reads no. */
  function FirstNoLabel(labels: seq<string>): (r: Option<string>)
    ensures r.Some? ==> r.value in labels && NoLabel(r.value)
    ensures r.None? ==> forall l :: l in labels ==> !NoLabel(l)
  {
    if labels == [] then None
    else if NoLabel(labels[0]) then Some(labels[0])
    else FirstNoLabel(labels[1..])
  }

  /**
   * The value clicked for a readable block, corrected: where the fixed answer
   * is No, the first label that reads no (the No value when there is none);
   * every other block keeps the value as written.
   */
  function CustomOptionValue(b: OptionBlock): (r: string)
    requires Readable(b)
    ensures FixedAnswer(Lower(Strip(b.question))) != Some("No") ==> r == CustomOptionValueAsWritten(b)
    ensures FixedAnswer(Lower(Strip(b.question))) == Some("No") && FirstNoLabel(BlockLabels(b)).Some?
            ==> r == FirstNoLabel(BlockLabels(b)).value
    ensures FixedAnswer(Lower(Strip(b.question))) == Some("No") ==> !YesLabel(r)
    ensures r in ["Yes", "No"] || r in BlockLabels(b)
  {
    var ql := Lower(Strip(b.question));
    if FixedAnswer(ql) == Some("No") then
      match FirstNoLabel(BlockLabels(b))
      case Some(l) => l
      case None => NoLabelReadsNo(); "No"
    else CustomOptionValueAsWritten(b)
  }

  /** "No" reads no and "Yes" does not. */
  lemma NoLabelReadsNo()
    ensures !YesLabel("No") && NoLabel("No") && !NoLabel("Yes")
  {
    NoLowered();
    YesIsYesLabel();
    assert StartsWith("no", "no");
  }

  lemma NoLowered()
    ensures Strip(Lower("No")) == "no"
  {
    LowerYesNo();
    StripUnpadded("no");
  }

  /**
   * As written, a right-to-work question about Canada offered as Yes/No
   * clicks Yes although its fixed answer is No; the corrected value is No.
   */
  lemma RightToWorkAnsweredYes(b: OptionBlock)
    requires Readable(b) && b.allLabels == ["Yes", "No"]
    requires Occurs("right to work", Lower(Strip(b.question))) && Occurs("canada", Lower(Strip(b.question)))
    requires !Occurs("sponsorship", Lower(Strip(b.question)))
    ensures FixedAnswer(Lower(Strip(b.question))) == Some("No")
    ensures CustomOptionValueAsWritten(b) == "Yes"
    ensures CustomOptionValue(b) == "No"
  {
    var ql := Lower(Strip(b.question));
    assert FixedAnswer(ql) == Some("No");
    assert BlockLabels(b) == ["Yes", "No"];
    var target := TargetLabel(ql, BlockLabels(b));
    YesNoTarget(ql);
    assert target == "Yes";
    YesTargetClicksYes(BlockAnswer(ql, target));
    NoLabelReadsNo();
    assert FirstNoLabel(["Yes", "No"]) == Some("No") by {
      assert ["Yes", "No"][1..] == ["No"];
    }
  }

  /** As written, a Yes target label clicks Yes whatever the answer. */
  lemma YesTargetClicksYes(answer: string)
    ensures TargetValueAsWritten(answer, "Yes") == "Yes"
  {
    YesReadsYes();
  }

  lemma YesReadsYes()
    ensures Occurs("yes", Lower("Yes"))
  {
    LowerYesNo();
    assert StartsWith("yes", "yes");
  }

  lemma LowerYesNo()
    ensures Lower("Yes") == "yes" && Lower("No") == "no"
  {
  }

  /** With labels Yes and No, the target label is Yes, whatever the question. */
  lemma YesNoTarget(questionLower: string)
    ensures TargetLabel(questionLower, ["Yes", "No"]) == "Yes"
  {
    NoRelocationLabel();
    YesIsYesLabel();
    assert FirstYesLabel(["Yes", "No"]) == Some("Yes");
  }

  /** Neither Yes nor No mentions relocating. */
  lemma NoRelocationLabel()
    ensures FirstMentioning(["Yes", "No"], RelocationKeywords) == None
  {
    LowerYesNo();
    forall k | k in RelocationKeywords ensures !Occurs(k, "yes") && !Occurs(k, "no") {
      OccursNeedsLength(k, "yes");
      OccursNeedsLength(k, "no");
    }
    assert !AnyOccurs(RelocationKeywords, Lower("Yes"));
    assert !AnyOccurs(RelocationKeywords, Lower("No"));
    var labels := ["Yes", "No"];
    assert labels[1..] == ["No"] && labels[1..][1..] == [];
  }

  lemma YesIsYesLabel()
    ensures YesLabel("Yes")
  {
    LowerYesNo();
    StripUnpadded("yes");
    assert StartsWith("yes", "yes");
  }

  lemma {:induction false} OccursNeedsLength(p: string, s: string)
    ensures Occurs(p, s) ==> |p| <= |s|
    decreases |s|
  {
    if s != [] {
      OccursNeedsLength(p, s[1..]);
    }
  }

  /** What the loop does with one element, given the questions already answered. */
  predicate BlockActs(b: OptionBlock, seen: set<string>) {
    Readable(b) && BlockKey(b) !in seen && b.required
  }

  /** The questions answered after the elements `blocks`, in page order. */
  function SeenAfter(blocks: seq<OptionBlock>): set<string> {
    if blocks == [] then {}
    else
      var seen := SeenAfter(blocks[..|blocks| - 1]);
      var b := blocks[|blocks| - 1];
      if BlockActs(b, seen) then seen + {BlockKey(b)} else seen
  }

  /** The answered questions are exactly the keys of the readable required blocks. */
  lemma {:induction false} SeenAfterIsRequiredKeys(blocks: seq<OptionBlock>)
    ensures forall key :: key in SeenAfter(blocks) <==>
              exists b :: b in blocks && Readable(b) && b.required && BlockKey(b) == key
  {
    if blocks != [] {
      var init := blocks[..|blocks| - 1];
      SeenAfterIsRequiredKeys(init);
      assert blocks == init + [blocks[|blocks| - 1]];
    }
  }

  /** The choice made for each element: `None` when it is skipped. */
  function CustomRun(blocks: seq<OptionBlock>): (r: seq<Option<string>>)
    ensures |r| == |blocks|
  {
    if blocks == [] then []
    else
      var init := blocks[..|blocks| - 1];
      var b := blocks[|blocks| - 1];
      CustomRun(init) + [if BlockActs(b, SeenAfter(init)) then Some(CustomOptionValue(b)) else None]
  }

  lemma {:induction false} CustomRunAt(blocks: seq<OptionBlock>, i: nat)
    requires i < |blocks|
    ensures CustomRun(blocks)[i] == if BlockActs(blocks[i], SeenAfter(blocks[..i])) then Some(CustomOptionValue(blocks[i])) else None
  {
    var init := blocks[..|blocks| - 1];
    if i < |blocks| - 1 {
      CustomRunAt(init, i);
      assert init[..i] == blocks[..i];
    } else {
      assert init == blocks[..i];
    }
  }

  /** One more block: its choice is appended, and its question remembered if it was answered. */
  lemma CustomRunSnoc(blocks: seq<OptionBlock>, i: nat)
    requires i < |blocks|
    ensures CustomRun(blocks[..i + 1]) == CustomRun(blocks[..i])
              + [if BlockActs(blocks[i], SeenAfter(blocks[..i])) then Some(CustomOptionValue(blocks[i])) else None]
    ensures SeenAfter(blocks[..i + 1])
            == if BlockActs(blocks[i], SeenAfter(blocks[..i])) then SeenAfter(blocks[..i]) + {BlockKey(blocks[i])} else SeenAfter(blocks[..i])
  {
    var prefix := blocks[..i + 1];
    assert prefix[..i] == blocks[..i] && prefix[i] == blocks[i];
  }

  /** Each question is answered once: a later element of an already-answered question is skipped. */
  lemma CustomAnswersOncePerQuestion(blocks: seq<OptionBlock>, i: nat, j: nat)
    requires i < j < |blocks| && BlockKey(blocks[i]) == BlockKey(blocks[j])
    requires CustomRun(blocks)[i].Some?
    ensures CustomRun(blocks)[j].None?
  {
    CustomRunAt(blocks, i);
    CustomRunAt(blocks, j);
    SeenAfterIsRequiredKeys(blocks[..i]);
    SeenAfterIsRequiredKeys(blocks[..j]);
    assert blocks[i] in blocks[..j];
  }

  /** A skipped non-required block does not stop a later required block of the same question. */
  lemma OptionalBlockIsNotRemembered(blocks: seq<OptionBlock>)
    requires forall b :: b in blocks ==> !b.required
    ensures SeenAfter(blocks) == {}
  {
    SeenAfterIsRequiredKeys(blocks);
  }

  /** The loop over custom option elements, remembering answered questions. */
  method FillCustomOptions(blocks: seq<OptionBlock>) returns (choices: seq<Option<string>>, seen: set<string>)
    ensures choices == CustomRun(blocks) && seen == SeenAfter(blocks)
  {
    choices := [];
    seen := {};
    var i := 0;
    while i < |blocks|
      invariant 0 <= i <= |blocks|
      invariant choices == CustomRun(blocks[..i]) && seen == SeenAfter(blocks[..i])
    {
      var b := blocks[i];
      CustomRunSnoc(blocks, i);
      if b.question == "" || b.value == "" {
        choices := choices + [None];
      } else {
        var key := Take(Strip(b.question), 100);
        if key in seen || !b.required {
          choices := choices + [None];
        } else {
          seen := seen + {key};
          choices := choices + [Some(CustomOptionValue(b))];
        }
      }
      i := i + 1;
    }
    assert blocks[..i] == blocks;
  }

  // ---------------------------------------------------------------------------
  // Native radio buttons and checkboxes

  /** One native radio or checkbox input, with the text around it. */
  datatype RadioInput = RadioInput(
    name: Option<string>,   // the name attribute
    groupLabel: string,     // the legend or long label found above it
    blockText: string,      // the text of its fieldset or group
    ariaRequired: bool,
    groupChecked: bool,     // a radio of the same name is already checked
    optionLabel: string,    // its own label
    ai: Oracles)            // the language models' replies to this input's own prompts

  /** What is done for one input. */
  datatype RadioAction =
    | SetGroup(yes: bool)   // check the Yes (or No) radio of the group
    | CheckThis             // check this input
    | Leave                 // do nothing

  predicate Named(r: RadioInput) {
    r.name.Some? && r.name.value != ""
  }

  /** The configured Yes/No, read as Python's truthy `or` default. */
  predicate WantsYes(configured: string, default: string) {
    Lower(Strip(if configured != "" then configured else default)) in ["yes", "oui", "1", "true"]
  }

  predicate IsWorkAuthorizationGroup(combined: string) {
    (Occurs("right to work", combined) && (Occurs("canada", combined) || Occurs("country", combined)) && !Occurs("sponsorship", combined))
    || (Occurs("authorized", combined) && Occurs("work", combined) && (Occurs("canada", combined) || Occurs("country", combined)))
    || (Occurs("autorisé", combined) && Occurs("travailler", combined))
    || (Occurs("légalement", combined) && Occurs("travailler", combined))
  }

  predicate IsSponsorshipGroup(combined: string) {
    (Occurs("sponsorship", combined)
     && (Occurs("visa", combined) || Occurs("work", combined) || Occurs("employment", combined))
     && (Occurs("require", combined) || Occurs("need", combined) || Occurs("future", combined) || Occurs("aurez", combined)))
    || (Occurs("parrainage", combined)
        && (Occurs("immigration", combined) || Occurs("autorisation", combined) || Occurs("travail", combined)))
  }

  /** The question the resolver is asked: the group label or block text, else the option's full label. */
  function RadioQuestion(r: RadioInput): (q: string)
    ensures Strip(r.groupLabel) != "" ==> q == Strip(r.groupLabel)
    ensures r.groupLabel == "" && Strip(r.blockText) != "" ==> q == Strip(r.blockText)
  {
    var questionText := Strip(if r.groupLabel != "" then r.groupLabel else r.blockText);
    var joined := Strip(r.groupLabel + " " + r.optionLabel);
    var fullLabel := if joined != "" then joined else if r.optionLabel != "" then r.optionLabel else questionText;
    if questionText != "" then questionText else fullLabel
  }

  /** The answer for a generic group: resolver, open-question model, the sponsorship heuristic, then Yes. */
  function RadioAnswer(r: RadioInput, p: Profile, cvText: string): (a: string)
    ensures Strip(RadioQuestion(r)) != "" ==> Some(a) == AnswerForQuestion(RadioQuestion(r), p, cvText, r.ai)
  {
    var q := RadioQuestion(r);
    var answer := AnswerForQuestion(q, p, cvText, r.ai);
    var answer1 := if answer.None? && q != "" then AnyQuestionAnswer(q, AnswerMaxLength, r.ai.anyAnswer) else answer;
    var gl := Lower(r.groupLabel);
    var answer2 := if answer1.None? && r.groupLabel != ""
                      && (Occurs("sponsorship", gl) || Occurs("visa", gl))
                      && (Occurs("require", gl) || Occurs("need", gl) || Occurs("future", gl))
                   then Some("Yes") else answer1;
    if answer2.Some? then answer2.value else "Yes"
  }

  /** The decision for an input whose group has not been handled yet. */
  function RadioDecision(r: RadioInput, p: Profile, cvText: string): (act: RadioAction)
    ensures !('*' in r.blockText || '*' in r.groupLabel || r.ariaRequired) ==> act == Leave
    ensures Named(r) && r.groupChecked ==> act == Leave
  {
    var combined := Lower(r.blockText) + " " + Lower(r.groupLabel);
    if !('*' in r.blockText || '*' in r.groupLabel || r.ariaRequired) then Leave
    else if Named(r) && r.groupChecked then Leave
    else if IsWorkAuthorizationGroup(combined) then SetGroup(WantsYes(p.workAuthorizationAnswer, "No"))
    else if IsSponsorshipGroup(combined) then SetGroup(WantsYes(p.workNeedSponsorshipAnswer, "Yes"))
    else
      var answerLower := Lower(Strip(RadioAnswer(r, p, cvText)));
      if answerLower in ["yes", "no", "oui", "non"] then SetGroup(answerLower in ["yes", "oui"])
      else
        var optionLower := Lower(Strip(r.optionLabel));
        if Occurs(answerLower, optionLower) || (optionLower != "" && Occurs(optionLower, answerLower)) then CheckThis
        else Leave
  }

  /**
   * A right-to-work question that asks about sponsorship is not a
   * work-authorisation group; when it says it needs the sponsorship it is a
   * sponsorship group, so the sponsorship answer is used.
   */
  lemma RightToWorkSponsorshipGroup(combined: string)
    requires Occurs("right to work", combined) && Occurs("sponsorship", combined) && Occurs("need", combined)
    requires !Occurs("authorized", combined) && !Occurs("travailler", combined)
    ensures !IsWorkAuthorizationGroup(combined) && IsSponsorshipGroup(combined)
  {
    WorkInRightToWork();
    OccursTransitive("work", "right to work", combined);
  }

  lemma WorkInRightToWork()
    ensures Occurs("work", "right to work")
  {
    assert "right to work"[9..13] == "work";
    OccursAt("work", "right to work", 9);
  }

  /** A required, unanswered work-authorisation group is set from the configured answer. */
  lemma WorkAuthorizationGroupFollowsConfig(r: RadioInput, p: Profile, cvText: string)
    requires ('*' in r.blockText || '*' in r.groupLabel || r.ariaRequired) && !(Named(r) && r.groupChecked)
    requires IsWorkAuthorizationGroup(Lower(r.blockText) + " " + Lower(r.groupLabel))
    ensures RadioDecision(r, p, cvText) == SetGroup(WantsYes(p.workAuthorizationAnswer, "No"))
  {
  }

  /** A required, unanswered sponsorship group that is not about work authorisation is set from the configured answer. */
  lemma SponsorshipGroupFollowsConfig(r: RadioInput, p: Profile, cvText: string)
    requires ('*' in r.blockText || '*' in r.groupLabel || r.ariaRequired) && !(Named(r) && r.groupChecked)
    requires !IsWorkAuthorizationGroup(Lower(r.blockText) + " " + Lower(r.groupLabel))
    requires IsSponsorshipGroup(Lower(r.blockText) + " " + Lower(r.groupLabel))
    ensures RadioDecision(r, p, cvText) == SetGroup(WantsYes(p.workNeedSponsorshipAnswer, "Yes"))
  {
  }

  /**
   * Any other required, unanswered group follows the resolver's answer: a
   * yes/no/oui/non answer sets the group, and any other answer checks this
   * input exactly when the answer and its label contain one another.
   */
  lemma AnswerDrivenRadio(r: RadioInput, p: Profile, cvText: string)
    requires ('*' in r.blockText || '*' in r.groupLabel || r.ariaRequired) && !(Named(r) && r.groupChecked)
    requires !IsWorkAuthorizationGroup(Lower(r.blockText) + " " + Lower(r.groupLabel))
    requires !IsSponsorshipGroup(Lower(r.blockText) + " " + Lower(r.groupLabel))
    ensures var a := Lower(Strip(RadioAnswer(r, p, cvText)));
            a in ["yes", "no", "oui", "non"] ==> RadioDecision(r, p, cvText) == SetGroup(a in ["yes", "oui"])
    ensures var a := Lower(Strip(RadioAnswer(r, p, cvText)));
            var o := Lower(Strip(r.optionLabel));
            a !in ["yes", "no", "oui", "non"] ==>
              (RadioDecision(r, p, cvText) == CheckThis <==> Occurs(a, o) || (o != "" && Occurs(o, a)))
              && RadioDecision(r, p, cvText) != SetGroup(true) && RadioDecision(r, p, cvText) != SetGroup(false)
  {
  }

  /** With the default settings, work authorisation is answered No and sponsorship Yes. */
  lemma DefaultsAnswerNoThenYes()
    ensures !WantsYes(Defaults.workAuthorizationAnswer, "No")
    ensures WantsYes(Defaults.workNeedSponsorshipAnswer, "Yes")
  {
    WantsYesOfLiterals();
    assert Defaults.workAuthorizationAnswer == "No";
    assert Defaults.workNeedSponsorshipAnswer == "Yes";
  }

  lemma WantsYesOfLiterals()
    ensures !WantsYes("No", "No") && WantsYes("Yes", "Yes")
  {
    NoIsNotYes();
    YesIsYes();
  }

  lemma NoIsNotYes()
    ensures !WantsYes("No", "No")
  {
    StripUnpadded("No");
    var l := Lower("No");
    assert l == "no";
    assert l[0] == 'n' && |l| == 2;
  }

  lemma YesIsYes()
    ensures WantsYes("Yes", "Yes")
  {
    var y := "Yes";
    StripUnpadded(y);
    LowerYesNo();
    assert Lower(Strip(y)) == "yes";
  }

  /** The names of the named inputs among `radios`. */
  function NamesOf(radios: seq<RadioInput>): (r: set<string>)
    ensures forall n :: n in r <==> exists x :: x in radios && Named(x) && x.name.value == n
  {
    if radios == [] then {}
    else
      var init := radios[..|radios| - 1];
      var x := radios[|radios| - 1];
      assert radios == init + [x];
      NamesOf(init) + (if Named(x) then {x.name.value} else {})
  }

  /** The action taken for `x`, given the names of the groups already handled. */
  function RadioStep(x: RadioInput, seen: set<string>, p: Profile, cvText: string): RadioAction {
    if Named(x) && x.name.value in seen then Leave else RadioDecision(x, p, cvText)
  }

  /** The actions taken for the inputs, in page order. */
  function RadioRun(radios: seq<RadioInput>, p: Profile, cvText: string): (r: seq<RadioAction>)
    ensures |r| == |radios|
  {
    if radios == [] then []
    else
      var init := radios[..|radios| - 1];
      RadioRun(init, p, cvText) + [RadioStep(radios[|radios| - 1], NamesOf(init), p, cvText)]
  }

  lemma {:induction false} RadioRunAt(radios: seq<RadioInput>, p: Profile, cvText: string, i: nat)
    requires i < |radios|
    ensures RadioRun(radios, p, cvText)[i] == RadioStep(radios[i], NamesOf(radios[..i]), p, cvText)
  {
    var init := radios[..|radios| - 1];
    if i < |radios| - 1 {
      RadioRunAt(init, p, cvText, i);
      assert init[..i] == radios[..i];
    } else {
      assert init == radios[..i];
    }
  }

  /** One more input: its action is appended, and its name remembered. */
  lemma RadioRunSnoc(radios: seq<RadioInput>, p: Profile, cvText: string, i: nat)
    requires i < |radios|
    ensures RadioRun(radios[..i + 1], p, cvText)
            == RadioRun(radios[..i], p, cvText) + [RadioStep(radios[i], NamesOf(radios[..i]), p, cvText)]
    ensures NamesOf(radios[..i + 1]) == NamesOf(radios[..i]) + (if Named(radios[i]) then {radios[i].name.value} else {})
  {
    var prefix := radios[..i + 1];
    assert prefix[..i] == radios[..i] && prefix[i] == radios[i];
  }

  /** A named group is decided by its first input only: every later input of that name is left alone. */
  lemma GroupDecidedOnce(radios: seq<RadioInput>, p: Profile, cvText: string, i: nat, j: nat)
    requires i < j < |radios| && Named(radios[i]) && radios[j].name == radios[i].name
    ensures RadioRun(radios, p, cvText)[j] == Leave
  {
    RadioRunAt(radios, p, cvText, j);
    assert radios[i] in radios[..j];
  }

  /** The loop over native inputs, remembering the names of handled groups. */
  method FillRadios(radios: seq<RadioInput>, p: Profile, cvText: string) returns (actions: seq<RadioAction>, seen: set<string>)
    ensures actions == RadioRun(radios, p, cvText) && seen == NamesOf(radios)
  {
    actions := [];
    seen := {};
    var i := 0;
    while i < |radios|
      invariant 0 <= i <= |radios|
      invariant actions == RadioRun(radios[..i], p, cvText) && seen == NamesOf(radios[..i])
    {
      var x := radios[i];
      RadioRunSnoc(radios, p, cvText, i);
      var action := Leave;
      if !(x.name.Some? && x.name.value != "" && x.name.value in seen) {
        action := RadioDecision(x, p, cvText);
      }
      if x.name.Some? && x.name.value != "" {
        seen := seen + {x.name.value};
      }
      actions := actions + [action];
      i := i + 1;
    }
    assert radios[..i] == radios;
  }
}
