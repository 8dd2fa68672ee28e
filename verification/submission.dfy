/** The register page's `handleSubmit`: validate step 3, upload the payment
    screenshot under a key derived from the roll number and the clock, resolve
    its public URL, and sign the user up with the email and password as
    credentials and, as metadata, the other fields except `confirmPassword`
    plus the screenshot's public URL. On any provider failure it stays on the
    page with the provider's message.

    The clock reading and the provider's replies are parameters; the calls the
    handler makes are returned as a trace of effects, in the order made. */
module Submission {
  import opened Wrappers
  import Strings
  import opened Registration

  const Bucket := "payment-screenshots"
  const SignInPath := "/signin"
  const SuccessAlert := "Registration Successful! Please check your email to confirm."
  const FallbackError := "Failed to register"

  /** The user metadata sent with the sign-up. */
  datatype Metadata = Metadata(
    fullName: string,
    gender: string,
    mobile: string,
    participationType: string,
    accommodation: string,
    tshirtSize: string,
    rollNumber: string,
    college: string,
    paymentMethod: string,
    paymentScreenshotUrl: string)

  /** A call the handler makes, outside its own state. */
  datatype Effect =
    | Upload(bucket: string, key: string, file: File)
    | SignUp(email: string, password: string, metadata: Metadata)
    | Alert(message: string)
    | Redirect(path: string)

  /** The provider's answers: to the upload, to `getPublicUrl`, to `signUp`. */
  datatype Provider = Provider(upload: Outcome, publicUrl: string, signUp: Outcome)

  /** The wizard after the handler has settled, with the calls it made. */
  datatype Submitted = Submitted(wizard: Wizard, effects: seq<Effect>)

  // ---------------------------------------------------------------------------
  // The upload key
  // ---------------------------------------------------------------------------

  /** `${rollNumber}-${Date.now()}.${fileExt}` with `fileExt` the text after
      the last '.' of the file name. The key starts with the roll number and a
      dash, and has the same extension as the uploaded file. */
  function UploadKey(rollNumber: string, now: nat, fileName: string): (key: string)
    ensures Strings.IsPrefix(rollNumber + "-", key)
    ensures Strings.Extension(key) == Strings.Extension(fileName)
  {
    var stem := rollNumber + "-" + Strings.NatToString(now);
    var ext := Strings.Extension(fileName);
    Strings.ExtensionAfterLastDot(stem, ext);
    assert (stem + "." + ext)[..|rollNumber| + 1] == rollNumber + "-";
    stem + "." + ext
  }

  /** The text between the roll number's dash and the extension's dot is the
      decimal numeral of the timestamp (which reads back as `now`, by
      `Strings.ParseNatToString`). */
  lemma UploadKeyTimestamp(rollNumber: string, now: nat, fileName: string)
    ensures var key := UploadKey(rollNumber, now, fileName);
            var ext := Strings.Extension(fileName);
            |rollNumber| + 1 <= |key| - |ext| - 1 &&
            key[|rollNumber| + 1..|key| - |ext| - 1] == Strings.NatToString(now)
  {
    var digits := Strings.NatToString(now);
    var ext := Strings.Extension(fileName);
    MiddleOfThree(rollNumber + "-", digits, "." + ext);
    assert UploadKey(rollNumber, now, fileName) == (rollNumber + "-") + digits + ("." + ext);
  }

  /** The middle part of a three-part concatenation is found by its length. */
  lemma MiddleOfThree(a: string, b: string, c: string)
    ensures (a + b + c)[|a|..|a + b + c| - |c|] == b
  {
  }

  /** Two uploads of the same student's file at different instants never share
      a key: the key determines the timestamp. */
  lemma UploadKeyDeterminesTime(rollNumber: string, t1: nat, t2: nat, fileName: string)
    ensures UploadKey(rollNumber, t1, fileName) == UploadKey(rollNumber, t2, fileName) ==> t1 == t2
  {
    if UploadKey(rollNumber, t1, fileName) == UploadKey(rollNumber, t2, fileName) {
      UploadKeyTimestamp(rollNumber, t1, fileName);
      UploadKeyTimestamp(rollNumber, t2, fileName);
      Strings.NatToStringInjective(t1, t2);
    }
  }

  // ---------------------------------------------------------------------------
  // The submission sequence
  // ---------------------------------------------------------------------------

  /** `err.message || "Failed to register"`: the provider's message when it
      has one, the fallback text otherwise; never empty. */
  function ErrorText(message: string): (r: string)
    ensures r != ""
    ensures message != "" ==> r == message
    ensures message == "" ==> r == FallbackError
  {
    if message == "" then FallbackError else message
  }

  /** The metadata record built from the form and the screenshot's URL. */
  function MetadataOf(form: Form, url: string): Metadata {
    Metadata(form.fullName, form.gender, form.mobile, form.participationType,
             form.accommodation, form.tshirtSize, form.rollNumber, form.college,
             form.paymentMethod, url)
  }

  /** The body of the `try` block: the outcome (`Fail` when something threw)
      and the calls made before it finished. */
  function TryRegister(form: Form, now: nat, p: Provider): (r: (Outcome, seq<Effect>))
    ensures r.0.Fail? ==> r.0 == p.upload || r.0 == p.signUp
    ensures r.0 == Pass <==> Redirect(SignInPath) in r.1
  {
    var (uploaded, uploads, url) :=
      match form.paymentScreenshot
      case None => (Pass, [], "")
      case Some(file) =>
        var key := UploadKey(form.rollNumber, now, file.name);
        (p.upload, [Upload(Bucket, key, file)], p.publicUrl);
    if uploaded.Fail? then
      (uploaded, uploads)
    else
      var signUp := SignUp(form.email, form.password, MetadataOf(form, url));
      if p.signUp.Fail? then (p.signUp, uploads + [signUp])
      else (Pass, uploads + [signUp, Alert(SuccessAlert), Redirect(SignInPath)])
  }

  /** `handleSubmit`. A form that fails step-3 validation makes no call at all
      and only shows the validator's message. Otherwise the screenshot is
      uploaded first, the sign-up comes second and carries the form and the
      screenshot's public URL, and success ends in an alert and a redirect to
      the sign-in page. Whatever happens, the step and the form are kept, and
      the loading flag ends false once anything was attempted. The error line
      is empty exactly when the handler redirected. */
  function HandleSubmit(w: Wizard, now: nat, p: Provider): (s: Submitted)
    ensures s.wizard.form == w.form && s.wizard.currentStep == w.currentStep
    ensures !PaymentComplete(w.form) ==>
              s.effects == [] && s.wizard == w.(error := ValidateStep3(w.form).message)
    ensures PaymentComplete(w.form) ==>
              var file := w.form.paymentScreenshot.value;
              !s.wizard.isLoading && 0 < |s.effects| &&
              s.effects[0] == Upload(Bucket, UploadKey(w.form.rollNumber, now, file.name), file)
    ensures PaymentComplete(w.form) && p.upload.Fail? ==>
              |s.effects| == 1 && s.wizard.error == ErrorText(p.upload.message)
    ensures PaymentComplete(w.form) && p.upload.Pass? ==>
              2 <= |s.effects| &&
              s.effects[1] == SignUp(w.form.email, w.form.password, MetadataOf(w.form, p.publicUrl))
    ensures PaymentComplete(w.form) && p.upload.Pass? && p.signUp.Fail? ==>
              |s.effects| == 2 && s.wizard.error == ErrorText(p.signUp.message)
    ensures PaymentComplete(w.form) && p.upload.Pass? && p.signUp.Pass? ==>
              s.effects[2..] == [Alert(SuccessAlert), Redirect(SignInPath)]
    ensures s.wizard.error == "" <==> Redirect(SignInPath) in s.effects
  {
    match ValidateStep3(w.form)
    case Fail(m) => Submitted(w.(error := m), [])
    case Pass =>
      var (outcome, effects) := TryRegister(w.form, now, p);
      var error := if outcome.Fail? then ErrorText(outcome.message) else "";
      Submitted(w.(isLoading := false, error := error), effects)
  }

  /** Every call is preceded by a passing step-3 validation: a submission that
      made any call had a payment method and a screenshot. */
  lemma ValidationBeforeEffects(w: Wizard, now: nat, p: Provider)
    requires HandleSubmit(w, now, p).effects != []
    ensures PaymentComplete(w.form)
  {
  }

  /** A provider failure keeps the wizard on its step with the form intact, the
      loading flag down and the provider's message (or the fallback) shown. */
  lemma ProviderFailureKeepsData(w: Wizard, now: nat, p: Provider)
    requires PaymentComplete(w.form)
    requires p.upload.Fail? || p.signUp.Fail?
    ensures var s := HandleSubmit(w, now, p);
            s.wizard == w.(isLoading := false, error := s.wizard.error) &&
            (p.upload.Fail? ==> s.wizard.error == ErrorText(p.upload.message)) &&
            (p.upload.Pass? ==> s.wizard.error == ErrorText(p.signUp.message)) &&
            Redirect(SignInPath) !in s.effects
  {
  }
}
