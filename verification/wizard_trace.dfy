/** The wizard as the page lets a user drive it. Only the current step's panel
    is rendered, the Back button only above step 1, "Next Step" below step 3
    and "Complete Registration" on step 3 while not loading. Under those
    rendering rules the linear flow guarantees that reaching a step implies the
    earlier steps were complete, and every sign-up the page sends carries
    non-empty values for every field taken from the form (the screenshot URL
    is the provider's reply and is not constrained). */
module WizardTrace {
  import opened Wrappers
  import opened Registration
  import opened Submission

  /** One user interaction with the register page. */
  datatype Action =
    | Type(field: Field, value: string)
    | ChooseFiles(files: seq<File>)
    | NextClick
    | BackClick
    | SubmitClick(now: nat, provider: Provider)

  /** The control that fires `a` is on screen, and enabled, in state `w`. */
  predicate Enabled(w: Wizard, a: Action) {
    match a
    case Type(field, _) => PageOf(field) == w.currentStep
    case ChooseFiles(_) => w.currentStep == 3
    case NextClick => w.currentStep != 3
    case BackClick => w.currentStep > 1
    case SubmitClick(_, _) => w.currentStep == 3 && !w.isLoading
  }

  /** The handler `a` triggers; an interaction with a control that is not on
      screen cannot happen and changes nothing. */
  function Apply(w: Wizard, a: Action): Submitted {
    if !Enabled(w, a) then Submitted(w, [])
    else
      match a
      case Type(field, value) => Submitted(HandleChange(w, field, value), [])
      case ChooseFiles(files) => Submitted(HandleFileChange(w, files), [])
      case NextClick => Submitted(HandleNextStep(w), [])
      case BackClick => Submitted(HandlePrevStep(w), [])
      case SubmitClick(now, provider) => HandleSubmit(w, now, provider)
  }

  /** A session: the interactions in order, with every call they made. */
  function Run(w: Wizard, actions: seq<Action>): Submitted
    decreases |actions|
  {
    if actions == [] then Submitted(w, [])
    else
      var first := Apply(w, actions[0]);
      var rest := Run(first.wizard, actions[1..]);
      Submitted(rest.wizard, first.effects + rest.effects)
  }

  /** What holds of every state the page can be in between interactions: the
      step is 1, 2 or 3, no request is in flight, and each step behind the
      current one is complete. It holds because a step is only left through a
      passing validation and its fields are not rendered afterwards. */
  predicate Consistent(w: Wizard) {
    && ValidStep(w)
    && !w.isLoading
    && (w.currentStep >= 2 ==> PersonalComplete(w.form))
    && (w.currentStep == 3 ==> DetailsComplete(w.form))
  }

  /** A sign-up call carries a complete registration: the email, the password
      and every metadata field taken from the form are non-empty. The
      screenshot URL is the provider's reply and is not constrained. */
  predicate CompleteSignUp(e: Effect) {
    e.SignUp? ==>
      && e.email != "" && e.password != ""
      && e.metadata.fullName != "" && e.metadata.gender != "" && e.metadata.mobile != ""
      && e.metadata.participationType != "" && e.metadata.accommodation != ""
      && e.metadata.tshirtSize != "" && e.metadata.rollNumber != "" && e.metadata.college != ""
      && e.metadata.paymentMethod != ""
  }

  lemma InitialConsistent()
    ensures Consistent(Initial)
  {
  }

  /** Typing into a field of the current step leaves the steps behind it alone. */
  lemma TypingKeepsEarlierSteps(w: Wizard, field: Field, value: string)
    requires Consistent(w) && PageOf(field) == w.currentStep
    ensures Consistent(HandleChange(w, field, value))
  {
    var r := HandleChange(w, field, value);
    FieldsOnPages();
    if w.currentStep >= 2 {
      assert forall g :: g in FieldsOn(1) ==> g != field;
      assert Filled(r.form, FieldsOn(1));
    }
    if w.currentStep == 3 {
      assert forall g :: g in FieldsOn(2) ==> g != field;
      assert Filled(r.form, FieldsOn(2));
    }
  }

  /** Every sign-up the submission sequence makes carries the form's own
      credentials and fields, whatever the screenshot URL. */
  lemma SignUpsCarryForm(form: Form, now: nat, p: Provider)
    ensures forall e :: e in TryRegister(form, now, p).1 && e.SignUp? ==>
              e.email == form.email && e.password == form.password &&
              e.metadata == MetadataOf(form, e.metadata.paymentScreenshotUrl)
  {
  }

  /** A form complete on all three steps yields only complete sign-ups. */
  lemma CompleteFormSignsUpComplete(form: Form, e: Effect)
    requires PersonalComplete(form) && DetailsComplete(form) && form.paymentMethod != ""
    requires e.SignUp? && e.email == form.email && e.password == form.password
    requires e.metadata == MetadataOf(form, e.metadata.paymentScreenshotUrl)
    ensures CompleteSignUp(e)
  {
    FieldsOnPages();
    assert Get(form, FullName) != "" && Get(form, Gender) != "" && Get(form, Email) != "";
    assert Get(form, Mobile) != "" && Get(form, Password) != "";
    assert Get(form, ParticipationType) != "" && Get(form, Accommodation) != "";
    assert Get(form, TshirtSize) != "" && Get(form, RollNumber) != "" && Get(form, College) != "";
  }

  /** A submission from a consistent state leaves it consistent and any
      sign-up it makes carries a complete registration. */
  lemma SubmitFromConsistent(w: Wizard, now: nat, p: Provider)
    requires Consistent(w) && w.currentStep == 3
    ensures Consistent(HandleSubmit(w, now, p).wizard)
    ensures forall e :: e in HandleSubmit(w, now, p).effects ==> CompleteSignUp(e)
  {
    if PaymentComplete(w.form) {
      FieldsOnPages();
      assert Get(w.form, PaymentMethod) != "";
      SignUpsCarryForm(w.form, now, p);
      forall e | e in HandleSubmit(w, now, p).effects
        ensures CompleteSignUp(e)
      {
        if e.SignUp? {
          CompleteFormSignsUpComplete(w.form, e);
        }
      }
    }
  }

  /** Every interaction keeps the page consistent, and any sign-up it makes
      carries a complete registration. */
  lemma ApplyKeepsConsistent(w: Wizard, a: Action)
    requires Consistent(w)
    ensures Consistent(Apply(w, a).wizard)
    ensures forall e :: e in Apply(w, a).effects ==> CompleteSignUp(e)
  {
    if Enabled(w, a) {
      match a
      case Type(field, value) => TypingKeepsEarlierSteps(w, field, value);
      case ChooseFiles(files) =>
      case NextClick =>
      case BackClick =>
      case SubmitClick(now, provider) => SubmitFromConsistent(w, now, provider);
    }
  }

  /** Over any session that starts consistent, the page stays consistent and
      every sign-up call made carries a complete registration. */
  lemma {:induction false} RunKeepsConsistent(w: Wizard, actions: seq<Action>)
    requires Consistent(w)
    ensures Consistent(Run(w, actions).wizard)
    ensures forall e :: e in Run(w, actions).effects ==> CompleteSignUp(e)
    decreases |actions|
  {
    if actions != [] {
      var first := Apply(w, actions[0]);
      ApplyKeepsConsistent(w, actions[0]);
      RunKeepsConsistent(first.wizard, actions[1..]);
    }
  }

  /** From a freshly mounted page, no sequence of interactions can send a
      sign-up with an empty field other than the provider-supplied screenshot
      URL, nor reach step 3 without complete steps 1 and 2. */
  lemma FreshSessionSignsUpOnlyCompleteForms(actions: seq<Action>)
    ensures Consistent(Run(Initial, actions).wizard)
    ensures forall e :: e in Run(Initial, actions).effects ==> CompleteSignUp(e)
  {
    InitialConsistent();
    RunKeepsConsistent(Initial, actions);
  }
}
