/** The reset-password page (frontend/src/pages/ResetPassword.jsx): the OTP
    field filter, the submit checks and the request they guard, the page's
    reaction to the server's answer, the resend button's 60-second lockout,
    and where the page takes the email from. Requests are not sent here: a
    transition returns the request it would send, and the server's answer is
    an input. */
module ResetPassword {
  import opened Base
  import opened Js
  import opened Lists
  import opened ErrorText

  const OtpLength := 6
  const MinPasswordLength := 6
  const ResendSeconds := 60
  const EmailKey := "resetPasswordEmail"

  const OtpError := "Please enter a 6-digit OTP"
  const ShortPasswordError := "Password must be at least 6 characters long"
  const MismatchError := "Passwords do not match"
  const ResetFailedText := "Password reset failed. Please try again."
  const ResendFailedText := "Failed to resend OTP. Please try again."

  /** The page's state variables. `message` and `error` hold whatever was
      set, which need not be a string. */
  datatype Form = Form(
    otp: string, newPassword: string, confirmPassword: string, email: string,
    message: JsValue, error: JsValue, loading: bool, resendLoading: bool, countdown: int)

  /** The state on mount (ResetPassword.jsx lines 6-14). */
  const InitialForm := Form("", "", "", "", Str(""), Str(""), false, false, 0)

  /** The characters `\d` matches: ASCII digits. */
  predicate IsDigit(c: char)
  {
    '0' <= c <= '9'
  }

  predicate AllDigits(s: string)
  {
    forall i :: 0 <= i < |s| ==> IsDigit(s[i])
  }

  /** `value.replace(/\D/g, "")`: the digits of `s`, in order. */
  function DigitsOnly(s: string): (r: string)
    ensures AllDigits(r) && |r| <= |s|
    ensures AllDigits(s) ==> r == s
  {
    Filter(s, IsDigit)
  }

  /** The filter keeps every digit and nothing else, in order: a character
      is in the result exactly when it is a digit of the input, the result of
      a concatenation is the concatenation of the results, and one character
      gives itself or nothing. */
  lemma DigitsOnlyKeepsDigits(s: string, a: string, b: string, c: char)
    ensures forall x :: x in DigitsOnly(s) <==> x in s && IsDigit(x)
    ensures DigitsOnly(a + b) == DigitsOnly(a) + DigitsOnly(b)
    ensures DigitsOnly([c]) == if IsDigit(c) then [c] else []
  {
    var r := DigitsOnly(s);
    FilterMembers(s, IsDigit);
    forall x ensures x in r <==> x in s && IsDigit(x) {
      if x in r {
        var i :| 0 <= i < |r| && r[i] == x;
      }
      if x in s && IsDigit(x) {
        var i :| 0 <= i < |s| && s[i] == x;
      }
    }
    FilterAppend(a, b, IsDigit);
    assert [c][1..] == [];
  }

  /** What the OTP field may hold: at most six digits. */
  predicate ValidOtp(otp: string)
  {
    |otp| <= OtpLength && AllDigits(otp)
  }

  /** `handleOtpChange` (ResetPassword.jsx lines 41-46): the digits of the
      input are taken when there are at most six of them; otherwise the
      field keeps its old value. */
  function HandleOtpChange(otp: string, input: string): (r: string)
    ensures |DigitsOnly(input)| <= OtpLength ==> r == DigitsOnly(input)
    ensures |DigitsOnly(input)| > OtpLength ==> r == otp
    ensures ValidOtp(otp) ==> ValidOtp(r)
  {
    var value := DigitsOnly(input);
    if |value| <= OtpLength then value else otp
  }

  /** The OTP after a sequence of edits, starting from `otp`. */
  function TypeInto(otp: string, inputs: seq<string>): string
    decreases |inputs|
  {
    if inputs == [] then otp else TypeInto(HandleOtpChange(otp, inputs[0]), inputs[1..])
  }

  /** Whatever is typed or pasted, the OTP field only ever holds at most six
      digits. */
  lemma {:induction false} OtpAlwaysValid(otp: string, inputs: seq<string>)
    requires ValidOtp(otp)
    ensures ValidOtp(TypeInto(otp, inputs))
    decreases |inputs|
  {
    if inputs != [] {
      OtpAlwaysValid(HandleOtpChange(otp, inputs[0]), inputs[1..]);
    }
  }

  /** The submit checks (ResetPassword.jsx lines 51-64) in their order: the
      message of the first that fails, or `None`. */
  function Validate(otp: string, newPassword: string, confirmPassword: string): (r: Option<string>)
    ensures r.None? <==> |otp| == OtpLength && |newPassword| >= MinPasswordLength && newPassword == confirmPassword
    ensures |otp| != OtpLength ==> r == Some(OtpError)
    ensures |otp| == OtpLength && |newPassword| < MinPasswordLength ==> r == Some(ShortPasswordError)
    ensures |otp| == OtpLength && |newPassword| >= MinPasswordLength && newPassword != confirmPassword ==> r == Some(MismatchError)
  {
    if |otp| != OtpLength then Some(OtpError)
    else if |newPassword| < MinPasswordLength then Some(ShortPasswordError)
    else if newPassword != confirmPassword then Some(MismatchError)
    else None
  }

  /** The body of `POST /reset-password`. */
  datatype ResetRequest = ResetRequest(email: string, otp: string, newPassword: string)

  /** A transition's new state and the request it sends, if any. */
  datatype Step = Step(form: Form, request: Option<ResetRequest>)

  /** Submitting the form (ResetPassword.jsx lines 48-75): a failed check
      sets its message and sends nothing, changing nothing else; otherwise
      loading starts, error and message are cleared and the request goes out
      with the page's email, OTP and new password. */
  function Submit(f: Form): (r: Step)
    ensures Validate(f.otp, f.newPassword, f.confirmPassword).Some? ==>
              r.request == None && r.form == f.(error := Str(Validate(f.otp, f.newPassword, f.confirmPassword).value))
    ensures Validate(f.otp, f.newPassword, f.confirmPassword).None? ==>
              && r.form == f.(loading := true, error := Str(""), message := Str(""))
              && r.request == Some(ResetRequest(f.email, f.otp, f.newPassword))
  {
    match Validate(f.otp, f.newPassword, f.confirmPassword)
    case Some(msg) => Step(f.(error := Str(msg)), None)
    case None => Step(f.(loading := true, error := Str(""), message := Str("")), Some(ResetRequest(f.email, f.otp, f.newPassword)))
  }

  /** A request is sent exactly when every check passes, and what it carries
      is what the checks approved: a six-character OTP and a password of at
      least six characters equal to its confirmation. */
  lemma SubmitSendsOnlyValid(f: Form)
    ensures Submit(f).request.Some? <==> Validate(f.otp, f.newPassword, f.confirmPassword).None?
    ensures Submit(f).request.Some? ==>
              && |Submit(f).request.value.otp| == OtpLength
              && |Submit(f).request.value.newPassword| >= MinPasswordLength
              && Submit(f).request.value.newPassword == f.confirmPassword
  {
  }

  /** How a request ended: the body of a 2xx response, or axios's
      `err.response` (`undefined` when no response arrived). */
  datatype Outcome = Answered(data: JsValue) | Failed(response: JsValue)

  /** A settled transition: the new state, the storage, and the page the
      pending timer will navigate to. */
  datatype Settled = Settled(form: Form, store: Storage, navigateTo: Option<string>)

  /** Reading `data.message` off a `null` or `undefined` body throws, and the
      handler's catch then runs with no `err.response`. */
  function Normalize(o: Outcome): (r: Outcome)
    ensures r.Answered? ==> r.data != Null && r.data != Undefined
    ensures o.Answered? && o.data != Null && o.data != Undefined ==> r == o
    ensures o.Failed? ==> r == o
  {
    if o.Answered? && (o.data == Null || o.data == Undefined) then Failed(Undefined) else o
  }

  /** The reset request settling (ResetPassword.jsx lines 70-100): success
      shows the server's message, forgets the stored email and schedules
      /login; failure shows the extracted error text. Loading ends either way. */
  function ResetSettled(f: Form, store: Storage, o: Outcome): (r: Settled)
    ensures !r.form.loading
    ensures Normalize(o).Answered? ==>
              && r.form == f.(message := Prop(Normalize(o).data, "message"), loading := false)
              && r.store == store - {EmailKey} && r.navigateTo == Some("/login")
    ensures Normalize(o).Failed? ==>
              && r.form == f.(error := ErrorMessage(Normalize(o).response, ResetFailedText), loading := false)
              && r.store == store && r.navigateTo == None
  {
    match Normalize(o)
    case Answered(data) => Settled(f.(message := Prop(data, "message"), loading := false), store - {EmailKey}, Some("/login"))
    case Failed(response) => Settled(f.(error := ErrorMessage(response, ResetFailedText), loading := false), store, None)
  }

  /** Only a successful reset removes the stored email, and it removes
      nothing else. */
  lemma StoredEmailRemovedOnlyOnSuccess(f: Form, store: Storage, o: Outcome)
    ensures EmailKey !in ResetSettled(f, store, o).store <==> Normalize(o).Answered? || EmailKey !in store
    ensures forall k :: k != EmailKey ==> (k in ResetSettled(f, store, o).store <==> k in store)
  {
  }

  /** `handleResendOTP` starting (ResetPassword.jsx lines 103-105). */
  function ResendStart(f: Form): (r: Form)
    ensures r.resendLoading && r.error == Str("")
    ensures r.(resendLoading := f.resendLoading, error := f.error) == f
  {
    f.(resendLoading := true, error := Str(""))
  }

  /** The resend request settling (ResetPassword.jsx lines 107-130): success
      shows the message and starts the 60-second countdown; failure shows the
      extracted error text. The resend flag drops either way. */
  function ResendSettled(f: Form, o: Outcome): (r: Form)
    ensures !r.resendLoading
    ensures Normalize(o).Answered? ==> r == f.(message := Prop(Normalize(o).data, "message"), countdown := ResendSeconds, resendLoading := false)
    ensures Normalize(o).Failed? ==> r == f.(error := ErrorMessage(Normalize(o).response, ResendFailedText), resendLoading := false)
  {
    match Normalize(o)
    case Answered(data) => f.(message := Prop(data, "message"), countdown := ResendSeconds, resendLoading := false)
    case Failed(response) => f.(error := ErrorMessage(response, ResendFailedText), resendLoading := false)
  }

  /** One second of the countdown effect (ResetPassword.jsx lines 33-39): a
      positive countdown drops by one, zero stays. */
  function Tick(c: int): (r: int)
    ensures c > 0 ==> r == c - 1
    ensures c <= 0 ==> r == c
  {
    if c > 0 then c - 1 else c
  }

  function Ticks(c: int, n: nat): int
  {
    if n == 0 then c else Ticks(Tick(c), n - 1)
  }

  /** After `n` seconds a non-negative countdown stands at `c - n`, but never
      below zero. */
  lemma {:induction false} TicksCountDown(c: nat, n: nat)
    ensures Ticks(c, n) == if n >= c then 0 else c - n
  {
    if n > 0 {
      if c > 0 {
        TicksCountDown(c - 1, n - 1);
      } else {
        TicksStayAtZero(n - 1);
      }
    }
  }

  lemma {:induction false} TicksStayAtZero(n: nat)
    ensures Ticks(0, n) == 0
  {
    if n > 0 {
      TicksStayAtZero(n - 1);
    }
  }

  /** The resend button's `disabled` (ResetPassword.jsx line 231). */
  predicate ResendDisabled(f: Form)
  {
    f.resendLoading || f.countdown > 0
  }

  /** After a successful resend the button stays disabled for exactly 60
      seconds. */
  lemma ResendLockout(f: Form, data: JsValue, n: nat)
    requires data != Null && data != Undefined
    ensures var g := ResendSettled(f, Answered(data));
            ResendDisabled(g.(countdown := Ticks(g.countdown, n))) <==> n < ResendSeconds
  {
    TicksCountDown(ResendSeconds, n);
  }

  /** The submit button's `disabled` (ResetPassword.jsx line 208). */
  predicate SubmitDisabled(f: Form)
  {
    f.loading || |f.otp| != OtpLength || f.newPassword == "" || f.confirmPassword == ""
  }

  /** An enabled button means the OTP check passes, but the password checks
      can still fail: the button does not test length or equality. */
  lemma EnabledSubmitPassesOtpCheck(f: Form)
    ensures !SubmitDisabled(f) ==> Validate(f.otp, f.newPassword, f.confirmPassword) != Some(OtpError)
    ensures !SubmitDisabled(InitialForm.(otp := "123456", newPassword := "abc", confirmPassword := "abc"))
    ensures Validate("123456", "abc", "abc") == Some(ShortPasswordError)
  {
  }

  /** Where the page takes its email from. */
  datatype EmailChoice = UseEmail(email: string) | GoTo(path: string)

  /** The mount effect (ResetPassword.jsx lines 18-31): a non-empty `email`
      query parameter wins, else a non-empty stored email, else the page
      leaves for /forgot-password. */
  function ChooseEmail(param: Option<string>, store: Storage): (c: EmailChoice)
    ensures c.UseEmail? ==> c.email != ""
    ensures c.GoTo? ==> c.path == "/forgot-password"
    ensures param.Some? && param.value != "" ==> c == UseEmail(param.value)
  {
    if param.Some? && param.value != "" then UseEmail(param.value)
    else if HasToken(store, EmailKey) then UseEmail(store[EmailKey])
    else GoTo("/forgot-password")
  }

  /** The stored email is used only without a usable parameter, and the page
      redirects exactly when neither source has a non-empty email. */
  lemma ChooseEmailIff(param: Option<string>, store: Storage)
    ensures ChooseEmail(param, store).GoTo? <==>
              (param.None? || param.value == "") && !(EmailKey in store && store[EmailKey] != "")
    ensures (param.None? || param.value == "") && EmailKey in store && store[EmailKey] != "" ==>
              ChooseEmail(param, store) == UseEmail(store[EmailKey])
  {
    HasTokenIff(store, EmailKey);
  }

  /** The page after mounting: the chosen email, or unchanged when it leaves. */
  function Mount(param: Option<string>, store: Storage): (r: Form)
    ensures ChooseEmail(param, store).UseEmail? ==> r == InitialForm.(email := ChooseEmail(param, store).email)
    ensures ChooseEmail(param, store).GoTo? ==> r == InitialForm
  {
    match ChooseEmail(param, store)
    case UseEmail(e) => InitialForm.(email := e)
    case GoTo(_) => InitialForm
  }
}
