/** The registration wizard's local state: the flat form record, the per-step
    validators, and the transitions for Next, Back and the two input handlers
    (app/register/page.tsx). */
module Registration {
  import opened Wrappers
  import Strings

  // ---------------------------------------------------------------------------
  // The form record
  // ---------------------------------------------------------------------------

  /** The uploaded payment evidence. Only its name matters to the wizard. */
  datatype File = File(name: string)

  /** Every text input of the wizard, by its `name` attribute. */
  datatype Field =
    | FullName | Gender | Email | Mobile | Password | ConfirmPassword
    | ParticipationType | Accommodation | TshirtSize | RollNumber | College
    | PaymentMethod

  /** The flat form record the wizard accumulates across its three steps. */
  datatype Form = Form(
    fullName: string,
    gender: string,
    email: string,
    mobile: string,
    password: string,
    confirmPassword: string,
    participationType: string,
    accommodation: string,
    tshirtSize: string,
    rollNumber: string,
    college: string,
    paymentMethod: string,
    paymentScreenshot: Option<File>)

  const EmptyForm := Form("", "", "", "", "", "", "", "", "", "", "", "", None)

  function Get(form: Form, field: Field): string {
    match field
    case FullName => form.fullName
    case Gender => form.gender
    case Email => form.email
    case Mobile => form.mobile
    case Password => form.password
    case ConfirmPassword => form.confirmPassword
    case ParticipationType => form.participationType
    case Accommodation => form.accommodation
    case TshirtSize => form.tshirtSize
    case RollNumber => form.rollNumber
    case College => form.college
    case PaymentMethod => form.paymentMethod
  }

  /** `{ ...formData, [name]: value }`: the named field takes the new value and
      every other field, the screenshot included, keeps its old one. */
  function Set(form: Form, field: Field, value: string): (r: Form)
    ensures Get(r, field) == value
    ensures forall g :: g != field ==> Get(r, g) == Get(form, g)
    ensures r.paymentScreenshot == form.paymentScreenshot
  {
    match field
    case FullName => form.(fullName := value)
    case Gender => form.(gender := value)
    case Email => form.(email := value)
    case Mobile => form.(mobile := value)
    case Password => form.(password := value)
    case ConfirmPassword => form.(confirmPassword := value)
    case ParticipationType => form.(participationType := value)
    case Accommodation => form.(accommodation := value)
    case TshirtSize => form.(tshirtSize := value)
    case RollNumber => form.(rollNumber := value)
    case College => form.(college := value)
    case PaymentMethod => form.(paymentMethod := value)
  }

  /** Two forms are equal exactly when they agree on every text field and on
      the screenshot, so `Get` and `paymentScreenshot` observe the whole record. */
  lemma FormExtensionality(a: Form, b: Form)
    requires forall g :: Get(a, g) == Get(b, g)
    requires a.paymentScreenshot == b.paymentScreenshot
    ensures a == b
  {
    assert Get(a, FullName) == Get(b, FullName);
    assert Get(a, Gender) == Get(b, Gender);
    assert Get(a, Email) == Get(b, Email);
    assert Get(a, Mobile) == Get(b, Mobile);
    assert Get(a, Password) == Get(b, Password);
    assert Get(a, ConfirmPassword) == Get(b, ConfirmPassword);
    assert Get(a, ParticipationType) == Get(b, ParticipationType);
    assert Get(a, Accommodation) == Get(b, Accommodation);
    assert Get(a, TshirtSize) == Get(b, TshirtSize);
    assert Get(a, RollNumber) == Get(b, RollNumber);
    assert Get(a, College) == Get(b, College);
    assert Get(a, PaymentMethod) == Get(b, PaymentMethod);
  }

  /** The step whose panel renders the input for `field`. */
  function PageOf(field: Field): int {
    match field
    case FullName | Gender | Email | Mobile | Password | ConfirmPassword => 1
    case ParticipationType | Accommodation | TshirtSize | RollNumber | College => 2
    case PaymentMethod => 3
  }

  /** The fields rendered on step `page`. */
  function FieldsOn(page: int): set<Field> {
    set g: Field | PageOf(g) == page
  }

  // ---------------------------------------------------------------------------
  // Validation
  // ---------------------------------------------------------------------------

  const MissingDetails := "fill the all details"
  const PasswordMismatch := "Passwords do not match."
  const MissingPaymentMethod := "Please select a payment method"
  const MissingScreenshot := "Payment screenshot required"

  /** Every field in `fields` is non-empty. */
  predicate Filled(form: Form, fields: set<Field>) {
    forall g :: g in fields ==> Get(form, g) != ""
  }

  /** What step 1 demands before the wizard may leave it. */
  predicate PersonalComplete(form: Form) {
    Filled(form, FieldsOn(1)) && form.password == form.confirmPassword
  }

  /** What step 2 demands before the wizard may leave it. */
  predicate DetailsComplete(form: Form) {
    Filled(form, FieldsOn(2))
  }

  /** What step 3 demands before anything is sent to the provider. */
  predicate PaymentComplete(form: Form) {
    Filled(form, FieldsOn(3)) && form.paymentScreenshot.Some?
  }

  lemma FieldsOnPages()
    ensures FieldsOn(1) == {FullName, Gender, Email, Mobile, Password, ConfirmPassword}
    ensures FieldsOn(2) == {ParticipationType, Accommodation, TshirtSize, RollNumber, College}
    ensures FieldsOn(3) == {PaymentMethod}
  {
    assert PageOf(FullName) == 1 && PageOf(Gender) == 1 && PageOf(Email) == 1;
    assert PageOf(Mobile) == 1 && PageOf(Password) == 1 && PageOf(ConfirmPassword) == 1;
    assert PageOf(ParticipationType) == 2 && PageOf(Accommodation) == 2 && PageOf(TshirtSize) == 2;
    assert PageOf(RollNumber) == 2 && PageOf(College) == 2 && PageOf(PaymentMethod) == 3;
  }

  /** `validateStep1`: a missing field is reported before a password mismatch;
      it passes exactly when step 1 is complete. */
  function ValidateStep1(form: Form): (r: Outcome)
    ensures r == Pass <==> PersonalComplete(form)
    ensures !Filled(form, FieldsOn(1)) ==> r == Fail(MissingDetails)
    ensures Filled(form, FieldsOn(1)) && form.password != form.confirmPassword ==>
              r == Fail(PasswordMismatch)
  {
    FieldsOnPages();
    if form.fullName == "" || form.gender == "" || form.email == "" || form.mobile == ""
       || form.password == "" || form.confirmPassword == ""
    then
      assert !Filled(form, FieldsOn(1)) by {
        assert Get(form, FullName) == "" || Get(form, Gender) == "" || Get(form, Email) == ""
          || Get(form, Mobile) == "" || Get(form, Password) == "" || Get(form, ConfirmPassword) == "";
      }
      Fail(MissingDetails)
    else if form.password != form.confirmPassword then
      Fail(PasswordMismatch)
    else
      Pass
  }

  /** `validateStep2`: passes exactly when every step-2 field is filled. */
  function ValidateStep2(form: Form): (r: Outcome)
    ensures r == Pass <==> DetailsComplete(form)
    ensures r != Pass ==> r == Fail(MissingDetails)
  {
    FieldsOnPages();
    if form.participationType == "" || form.accommodation == "" || form.tshirtSize == ""
       || form.rollNumber == "" || form.college == ""
    then
      assert !Filled(form, FieldsOn(2)) by {
        assert Get(form, ParticipationType) == "" || Get(form, Accommodation) == ""
          || Get(form, TshirtSize) == "" || Get(form, RollNumber) == "" || Get(form, College) == "";
      }
      Fail(MissingDetails)
    else
      Pass
  }

  /** `validateStep3`: a missing payment method is reported before a missing
      screenshot; it passes exactly when step 3 is complete. */
  function ValidateStep3(form: Form): (r: Outcome)
    ensures r == Pass <==> PaymentComplete(form)
    ensures form.paymentMethod == "" ==> r == Fail(MissingPaymentMethod)
    ensures form.paymentMethod != "" && form.paymentScreenshot.None? ==> r == Fail(MissingScreenshot)
  {
    FieldsOnPages();
    assert Get(form, PaymentMethod) == form.paymentMethod;
    if form.paymentMethod == "" then Fail(MissingPaymentMethod)
    else if form.paymentScreenshot.None? then Fail(MissingScreenshot)
    else Pass
  }

  // ---------------------------------------------------------------------------
  // The wizard state and its transitions
  // ---------------------------------------------------------------------------

  /** `currentStep`, `error`, `formData` and `isLoading` of the register page. */
  datatype Wizard = Wizard(currentStep: int, error: string, form: Form, isLoading: bool)

  const Initial := Wizard(1, "", EmptyForm, false)

  predicate ValidStep(w: Wizard) {
    1 <= w.currentStep <= 3
  }

  /** `handleNextStep`: step 1 advances exactly when step 1 is complete, step 2
      exactly when step 2 is complete; a refusal keeps the step and shows the
      validator's message; any other step only clears the error. The form and
      the loading flag never change. */
  function HandleNextStep(w: Wizard): (r: Wizard)
    ensures r.form == w.form && r.isLoading == w.isLoading
    ensures r.currentStep == w.currentStep || r.currentStep == w.currentStep + 1
    ensures w.currentStep == 1 ==> (r.currentStep == 2 <==> PersonalComplete(w.form))
    ensures w.currentStep == 1 && !Filled(w.form, FieldsOn(1)) ==> r.error == MissingDetails
    ensures w.currentStep == 1 && Filled(w.form, FieldsOn(1)) && w.form.password != w.form.confirmPassword ==>
              r.error == PasswordMismatch
    ensures w.currentStep == 2 ==> (r.currentStep == 3 <==> DetailsComplete(w.form))
    ensures w.currentStep == 2 && !DetailsComplete(w.form) ==> r.error == MissingDetails
    ensures w.currentStep != 1 && w.currentStep != 2 ==> r == w.(error := "")
    ensures r.error == "" <==> r.currentStep != w.currentStep || (w.currentStep != 1 && w.currentStep != 2)
    ensures ValidStep(w) ==> ValidStep(r)
  {
    var cleared := w.(error := "");
    if w.currentStep == 1 then
      match ValidateStep1(w.form)
      case Pass => cleared.(currentStep := 2)
      case Fail(m) => cleared.(error := m)
    else if w.currentStep == 2 then
      match ValidateStep2(w.form)
      case Pass => cleared.(currentStep := 3)
      case Fail(m) => cleared.(error := m)
    else
      cleared
  }

  /** `handlePrevStep`: one step back when above step 1, otherwise stay; the
      error is cleared either way and the form is untouched. */
  function HandlePrevStep(w: Wizard): (r: Wizard)
    ensures r.error == "" && r.form == w.form && r.isLoading == w.isLoading
    ensures w.currentStep > 1 ==> r.currentStep + 1 == w.currentStep
    ensures w.currentStep <= 1 ==> r.currentStep == w.currentStep
    ensures ValidStep(w) ==> ValidStep(r)
  {
    if w.currentStep > 1 then w.(error := "", currentStep := w.currentStep - 1) else w.(error := "")
  }

  /** Back undoes an accepted Next: the wizard returns to where it was, with
      the error line cleared. */
  lemma {:induction false} PrevUndoesNext(w: Wizard)
    requires HandleNextStep(w).currentStep != w.currentStep
    ensures HandlePrevStep(HandleNextStep(w)) == w.(error := "")
  {
    var n := HandleNextStep(w);
    assert n.currentStep == w.currentStep + 1;
    assert w.currentStep == 1 || w.currentStep == 2;
  }

  /** `handleChange`: the named field takes the typed value, every other field
      and the screenshot stay as they were, the error is cleared and the step
      does not move. */
  function HandleChange(w: Wizard, field: Field, value: string): (r: Wizard)
    ensures Get(r.form, field) == value
    ensures forall g :: g != field ==> Get(r.form, g) == Get(w.form, g)
    ensures r.form.paymentScreenshot == w.form.paymentScreenshot
    ensures r.error == "" && r.currentStep == w.currentStep && r.isLoading == w.isLoading
  {
    w.(form := Set(w.form, field, value), error := "")
  }

  /** Re-typing a field's current value changes nothing but the error line. */
  lemma ChangeToSameValue(w: Wizard, field: Field)
    ensures HandleChange(w, field, Get(w.form, field)) == w.(error := "")
  {
    var r := HandleChange(w, field, Get(w.form, field));
    FormExtensionality(r.form, w.form);
  }

  /** `handleFileChange`: with no file chosen nothing at all changes (not even
      the error); otherwise the first chosen file becomes the screenshot, the
      error is cleared, and no text field changes. */
  function HandleFileChange(w: Wizard, files: seq<File>): (r: Wizard)
    ensures files == [] ==> r == w
    ensures files != [] ==> r.form.paymentScreenshot == Some(files[0]) && r.error == ""
    ensures forall g :: Get(r.form, g) == Get(w.form, g)
    ensures r.currentStep == w.currentStep && r.isLoading == w.isLoading
  {
    if 0 < |files| then w.(form := w.form.(paymentScreenshot := Some(files[0])), error := "") else w
  }

  // ---------------------------------------------------------------------------
  // Plan summary and amount
  // ---------------------------------------------------------------------------

  /** The two plans offered on step 2, with the label of their `<option>`. */
  const PlanOptions: seq<(string, string)> := [
    ("all_events", "All Events (Online + Offline) - \U{20B9}999"),
    ("online_only", "Online Only - \U{20B9}499")
  ]

  /** `getPlanName`: the human name of a known plan, which is the text of its
      step-2 option before the price; any other value is shown as is. */
  function PlanName(value: string): (r: string)
    ensures forall k :: 0 <= k < |PlanOptions| && PlanOptions[k].0 == value ==>
              r != value && Strings.IsPrefix(r + " - \U{20B9}", PlanOptions[k].1)
    ensures value != "all_events" && value != "online_only" ==> r == value
  {
    if value == "all_events" then "All Events (Online + Offline)"
    else if value == "online_only" then "Online Only"
    else value
  }

  /** The amount in rupees the plan costs: the online-only plan is cheaper,
      everything else is charged the full pass. */
  function Amount(participationType: string): nat {
    if participationType == "online_only" then 499 else 999
  }

  /** The "Amount to Pay" text of the payment panel. */
  function AmountLabel(participationType: string): string {
    if participationType == "online_only" then "\U{20B9}499" else "\U{20B9}999"
  }

  /** The `am=` parameter of the UPI QR code. */
  function QrAmount(participationType: string): string {
    if participationType == "online_only" then "499" else "999"
  }

  /** The amount shown and the amount encoded in the QR code are the same
      number, the plan's price. */
  lemma AmountsAgree(participationType: string)
    ensures QrAmount(participationType) == Strings.NatToString(Amount(participationType))
    ensures AmountLabel(participationType) == "\U{20B9}" + QrAmount(participationType)
  {
    if participationType == "online_only" {
      assert Strings.NatToString(4) == "4";
      assert Strings.NatToString(49) == "49";
      assert Strings.NatToString(499) == "499";
    } else {
      assert Strings.NatToString(9) == "9";
      assert Strings.NatToString(99) == "99";
      assert Strings.NatToString(999) == "999";
    }
  }

  /** The summary on step 3 (plan name and amount) reproduces, for each plan,
      the label of the option chosen on step 2. */
  lemma SummaryMatchesOption(k: nat)
    requires k < |PlanOptions|
    ensures PlanName(PlanOptions[k].0) + " - " + AmountLabel(PlanOptions[k].0) == PlanOptions[k].1
  {
  }
}
