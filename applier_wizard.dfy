/**
 * The two bounded step loops that drive the Easy Apply modal. The page is
 * an input: for each step, what the modal shows once it has been filled.
 */
module ApplierWizard {
  import opened Wrappers
  import opened Text
  import opened ApplierKeys

  // ---------------------------------------------------------------------------
  // The contact step and the questions steps

  /** Iterations after the contact step. */
  const MaxWizardSteps := 12

  /** What one iteration finds once the questions on the step have been filled. */
  datatype WizardObs = WizardObs(
    bodyText: Option<string>,     // the modal's lower-cased text; None when it could not be read
    invalidCount: Option<nat>,    // how many fields are marked invalid, when it could be counted
    submitVisible: bool,
    verifyVisible: bool,
    nextVisible: bool)

  predicate ShowsErrors(o: WizardObs) {
    HasValidationErrors(o.bodyText, o.invalidCount)
  }

  /** An iteration that clicks Verify or Next and goes on to the next one. */
  predicate Continues(o: WizardObs) {
    !ShowsErrors(o) && !o.submitVisible && (o.verifyVisible || o.nextVisible)
  }

  /** The outcome of the iterations from `k` on. */
  function WizardFrom(obs: nat -> WizardObs, k: nat): bool
    decreases MaxWizardSteps - k
  {
    if k >= MaxWizardSteps then true
    else if ShowsErrors(obs(k)) then false
    else if obs(k).submitVisible then true
    else if obs(k).verifyVisible || obs(k).nextVisible then WizardFrom(obs, k + 1)
    else true
  }

  /**
   * `fill_contact_and_click_suivant`: no modal, or a Next click on the
   * contact step that fails, gives false; a submit button already showing
   * gives true; then the questions steps decide.
   */
  function ContactFlow(modalVisible: bool, submitAtStart: bool, nextClicked: bool, obs: nat -> WizardObs): bool {
    if !modalVisible then false
    else if submitAtStart then true
    else if !nextClicked then false
    else WizardFrom(obs, 0)
  }

  /** The iterations before `k` all went on. */
  predicate Reaches(obs: nat -> WizardObs, k: nat) {
    forall j :: 0 <= j < k ==> Continues(obs(j))
  }

  /** The questions steps fail exactly when a reached iteration shows a validation error. */
  lemma {:induction false} WizardFailsOnlyOnErrors(obs: nat -> WizardObs, k: nat)
    requires k <= MaxWizardSteps && Reaches(obs, k)
    ensures !WizardFrom(obs, k) <==> exists e :: k <= e < MaxWizardSteps && Reaches(obs, e) && ShowsErrors(obs(e))
    decreases MaxWizardSteps - k
  {
    if k < MaxWizardSteps {
      if !ShowsErrors(obs(k)) && !obs(k).submitVisible && (obs(k).verifyVisible || obs(k).nextVisible) {
        assert Reaches(obs, k + 1);
        WizardFailsOnlyOnErrors(obs, k + 1);
        if exists e :: k <= e < MaxWizardSteps && Reaches(obs, e) && ShowsErrors(obs(e)) {
          var e :| k <= e < MaxWizardSteps && Reaches(obs, e) && ShowsErrors(obs(e));
          assert e != k;
        }
      } else if ShowsErrors(obs(k)) {
        assert Reaches(obs, k) && ShowsErrors(obs(k));
      } else {
        forall e | k < e < MaxWizardSteps ensures !Reaches(obs, e) {
          assert !Continues(obs(k));
        }
      }
    }
  }

  /** Without validation errors, the flow succeeds once the contact step is passed. */
  lemma NoErrorsMeansApplied(modalVisible: bool, submitAtStart: bool, nextClicked: bool, obs: nat -> WizardObs)
    requires modalVisible && (submitAtStart || nextClicked)
    requires forall k :: 0 <= k < MaxWizardSteps ==> !ShowsErrors(obs(k))
    ensures ContactFlow(modalVisible, submitAtStart, nextClicked, obs)
  {
    if !submitAtStart {
      WizardFailsOnlyOnErrors(obs, 0);
    }
  }

  /**
   * The contact flow applies exactly when the modal is shown and either a
   * submit button is already there or the Next click works and no reached
   * iteration shows a validation error.
   */
  lemma ContactFlowOutcome(modalVisible: bool, submitAtStart: bool, nextClicked: bool, obs: nat -> WizardObs)
    ensures ContactFlow(modalVisible, submitAtStart, nextClicked, obs)
            <==> modalVisible && (submitAtStart || (nextClicked && !exists e :: 0 <= e < MaxWizardSteps && Reaches(obs, e) && ShowsErrors(obs(e))))
  {
    WizardFailsOnlyOnErrors(obs, 0);
  }

  /** The contact-step flow with its twelve-iteration loop. */
  method FillContactAndClickNext(modalVisible: bool, submitAtStart: bool, nextClicked: bool, obs: nat -> WizardObs)
    returns (applied: bool)
    ensures applied == ContactFlow(modalVisible, submitAtStart, nextClicked, obs)
  {
    if !modalVisible {
      return false;
    }
    if submitAtStart {
      return true;
    }
    if !nextClicked {
      return false;
    }
    var i := 0;
    while i < MaxWizardSteps
      invariant 0 <= i <= MaxWizardSteps
      invariant WizardFrom(obs, 0) == WizardFrom(obs, i)
      decreases MaxWizardSteps - i
    {
      var o := obs(i);
      if HasValidationErrors(o.bodyText, o.invalidCount) {
        return false;
      }
      if o.submitVisible {
        return true;
      }
      if o.verifyVisible {
        i := i + 1;
        continue;
      }
      if o.nextVisible {
        i := i + 1;
      } else {
        break;
      }
    }
    return true;
  }

  // ---------------------------------------------------------------------------
  // The form-answers flow

  /** Steps the form-answers flow goes through at most. */
  const MaxFormSteps := 15

  /** A visible field: its label and its type attribute. */
  datatype FormField = FormField(labelText: string, inputType: Option<string>)

  /** What one step shows: its fields, and the buttons visible after they are filled. */
  datatype FormStep = FormStep(fields: seq<FormField>, submitVisible: bool, nextVisible: bool)

  /** What is done to a field. */
  datatype FieldAction = Upload | SetChecked(on: bool) | Fill(value: string) | Skip

  predicate IsFileField(f: FormField) {
    f.inputType == Some("file")
  }

  /**
   * The action for one field, given whether the resume has already been
   * uploaded; `resumeReady` says a resume path is set and exists.
   */
  function FieldAct(f: FormField, used: bool, resumeReady: bool, answers: FormAnswers): (a: FieldAction)
    ensures a == Upload <==> IsFileField(f) && resumeReady && !used
    ensures a.Fill? || a.SetChecked? ==> FindAnswer(f.labelText, answers).Some? && FindAnswer(f.labelText, answers).value != ""
  {
    if IsFileField(f) then
      if resumeReady && !used then Upload else Skip
    else
      var answer := FindAnswer(f.labelText, answers);
      if answer.None? || answer.value == "" then Skip
      else if f.inputType == Some("checkbox") || f.inputType == Some("radio") then
        SetChecked(Lower(answer.value) in ["true", "yes", "1", "oui"])
      else Fill(answer.value)
  }

  /** Whether the resume has been uploaded after the fields `fields`. */
  function UsedAfter(fields: seq<FormField>, used: bool, resumeReady: bool): (r: bool)
    ensures r <==> used || (resumeReady && exists f :: f in fields && IsFileField(f))
  {
    if fields == [] then used
    else
      var init := fields[..|fields| - 1];
      assert fields == init + [fields[|fields| - 1]];
      UsedAfter(init, used, resumeReady) || (resumeReady && IsFileField(fields[|fields| - 1]))
  }

  /** The actions for the fields, in order. */
  function StepActions(fields: seq<FormField>, used: bool, resumeReady: bool, answers: FormAnswers): (r: seq<FieldAction>)
    ensures |r| == |fields|
  {
    if fields == [] then []
    else
      var init := fields[..|fields| - 1];
      StepActions(init, used, resumeReady, answers)
        + [FieldAct(fields[|fields| - 1], UsedAfter(init, used, resumeReady), resumeReady, answers)]
  }

  lemma {:induction false} StepActionsAt(fields: seq<FormField>, used: bool, resumeReady: bool, answers: FormAnswers, i: nat)
    requires i < |fields|
    ensures StepActions(fields, used, resumeReady, answers)[i]
            == FieldAct(fields[i], UsedAfter(fields[..i], used, resumeReady), resumeReady, answers)
  {
    var init := fields[..|fields| - 1];
    if i < |fields| - 1 {
      StepActionsAt(init, used, resumeReady, answers, i);
      assert init[..i] == fields[..i];
    } else {
      assert init == fields[..i];
    }
  }

  /** One more field: its action is appended, and the resume is used after it if it was a file field. */
  lemma StepActionsSnoc(fields: seq<FormField>, used: bool, resumeReady: bool, answers: FormAnswers, i: nat)
    requires i < |fields|
    ensures StepActions(fields[..i + 1], used, resumeReady, answers)
            == StepActions(fields[..i], used, resumeReady, answers) + [FieldAct(fields[i], UsedAfter(fields[..i], used, resumeReady), resumeReady, answers)]
    ensures UsedAfter(fields[..i + 1], used, resumeReady) == (UsedAfter(fields[..i], used, resumeReady) || (resumeReady && IsFileField(fields[i])))
  {
    var prefix := fields[..i + 1];
    assert prefix[..i] == fields[..i] && prefix[i] == fields[i];
  }

  /** The resume is uploaded at most once: only the first file field gets it. */
  lemma UploadAtMostOnce(fields: seq<FormField>, used: bool, resumeReady: bool, answers: FormAnswers, i: nat, j: nat)
    requires i < j < |fields|
    ensures !(StepActions(fields, used, resumeReady, answers)[i] == Upload && StepActions(fields, used, resumeReady, answers)[j] == Upload)
  {
    StepActionsAt(fields, used, resumeReady, answers, i);
    StepActionsAt(fields, used, resumeReady, answers, j);
    assert fields[i] in fields[..j];
  }

  /** Whether the step filled anything. */
  predicate FilledAny(acts: seq<FieldAction>) {
    exists a :: a in acts && a != Skip
  }

  lemma FilledAnyAppend(acts: seq<FieldAction>, act: FieldAction)
    ensures FilledAny(acts + [act]) <==> FilledAny(acts) || act != Skip
  {
    if FilledAny(acts) {
      var a :| a in acts && a != Skip;
      assert a in acts + [act];
    }
    if act != Skip {
      assert act in acts + [act];
    }
    if FilledAny(acts + [act]) {
      var a :| a in acts + [act] && a != Skip;
      assert a in acts || a == act;
    }
  }

  /** The outcome of the steps from `k` on, the resume already uploaded or not. */
  function FormFrom(steps: nat -> FormStep, k: nat, used: bool, resumeReady: bool, answers: FormAnswers): bool
    decreases MaxFormSteps - k
  {
    if k >= MaxFormSteps then false
    else
      var s := steps(k);
      var acts := StepActions(s.fields, used, resumeReady, answers);
      var used1 := UsedAfter(s.fields, used, resumeReady);
      if s.submitVisible then true
      else if s.nextVisible then FormFrom(steps, k + 1, used1, resumeReady, answers)
      else if !FilledAny(acts) && k > 0 then false
      else FormFrom(steps, k + 1, used1, resumeReady, answers)
  }

  /** `fill_easy_apply_form`: false without the modal, else the steps decide. */
  function FormFlow(modalVisible: bool, steps: nat -> FormStep, resumeReady: bool, answers: FormAnswers): bool {
    modalVisible && FormFrom(steps, 0, false, resumeReady, answers)
  }

  /** The form flow succeeds only by a submit button: some step from `k` on shows one. */
  lemma {:induction false} FormSucceedsOnlyBySubmit(steps: nat -> FormStep, k: nat, used: bool, resumeReady: bool, answers: FormAnswers)
    requires FormFrom(steps, k, used, resumeReady, answers)
    ensures exists e :: k <= e < MaxFormSteps && steps(e).submitVisible
    decreases MaxFormSteps - k
  {
    if !steps(k).submitVisible {
      var used1 := UsedAfter(steps(k).fields, used, resumeReady);
      FormSucceedsOnlyBySubmit(steps, k + 1, used1, resumeReady, answers);
    }
  }

  /**
   * The form flow needs the modal and a step showing a submit button, and a
   * submit button on the first step is enough.
   */
  lemma FormFlowOutcome(modalVisible: bool, steps: nat -> FormStep, resumeReady: bool, answers: FormAnswers)
    ensures FormFlow(modalVisible, steps, resumeReady, answers) ==> modalVisible && exists e :: 0 <= e < MaxFormSteps && steps(e).submitVisible
    ensures modalVisible && steps(0).submitVisible ==> FormFlow(modalVisible, steps, resumeReady, answers)
  {
    if FormFlow(modalVisible, steps, resumeReady, answers) {
      FormSucceedsOnlyBySubmit(steps, 0, false, resumeReady, answers);
    }
  }

  /** One field: the resume goes into the first file field; other fields take the looked-up answer. */
  method FillField(f: FormField, used: bool, resumeReady: bool, answers: FormAnswers) returns (act: FieldAction, usedAfter: bool)
    ensures act == FieldAct(f, used, resumeReady, answers)
    ensures usedAfter == (used || (resumeReady && IsFileField(f)))
  {
    act := Skip;
    usedAfter := used;
    if f.inputType == Some("file") {
      if resumeReady && !used {
        act := Upload;
        usedAfter := true;
      }
    } else {
      var answer := FindAnswer(f.labelText, answers);
      if answer.Some? && answer.value != "" {
        if f.inputType == Some("checkbox") || f.inputType == Some("radio") {
          act := SetChecked(Lower(answer.value) in ["true", "yes", "1", "oui"]);
        } else {
          act := Fill(answer.value);
        }
      }
    }
  }

  /** The fields of one step, in order, threading whether the resume was uploaded. */
  method FillStep(fields: seq<FormField>, used: bool, resumeReady: bool, answers: FormAnswers)
    returns (acts: seq<FieldAction>, usedAfter: bool, filledAny: bool)
    ensures acts == StepActions(fields, used, resumeReady, answers)
    ensures usedAfter == UsedAfter(fields, used, resumeReady)
    ensures filledAny == FilledAny(acts)
  {
    acts := [];
    usedAfter := used;
    filledAny := false;
    var i := 0;
    while i < |fields|
      invariant 0 <= i <= |fields|
      invariant acts == StepActions(fields[..i], used, resumeReady, answers)
      invariant usedAfter == UsedAfter(fields[..i], used, resumeReady)
      invariant filledAny == FilledAny(acts)
    {
      StepActionsSnoc(fields, used, resumeReady, answers, i);
      var act;
      act, usedAfter := FillField(fields[i], usedAfter, resumeReady, answers);
      if act != Skip {
        filledAny := true;
      }
      FilledAnyAppend(acts, act);
      acts := acts + [act];
      i := i + 1;
    }
    assert fields[..i] == fields;
  }

  /** The form-answers flow with its fifteen-step loop. */
  method FillEasyApplyForm(modalVisible: bool, steps: nat -> FormStep, resumeReady: bool, answers: FormAnswers)
    returns (applied: bool)
    ensures applied == FormFlow(modalVisible, steps, resumeReady, answers)
  {
    if !modalVisible {
      return false;
    }
    var used := false;
    var step := 0;
    while step < MaxFormSteps
      invariant 0 <= step <= MaxFormSteps
      invariant FormFlow(modalVisible, steps, resumeReady, answers) == FormFrom(steps, step, used, resumeReady, answers)
      decreases MaxFormSteps - step
    {
      var s := steps(step);
      var acts, usedAfter, filledAny := FillStep(s.fields, used, resumeReady, answers);
      if s.submitVisible {
        return true;
      }
      if s.nextVisible {
        used := usedAfter;
        step := step + 1;
        continue;
      }
      if !filledAny && step > 0 {
        break;
      }
      used := usedAfter;
      step := step + 1;
    }
    return false;
  }
}
