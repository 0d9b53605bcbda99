/**
  The admin login form: a submission first clears the previous error, then
  checks the captcha answer, and only then asks the backend to log in.
  A failure of either step shows an error and replaces the challenge.
 */
module AdminLogin {
  import opened Common
  import opened Types
  import Captcha
  import Backend

  /** The component state of the login form. */
  datatype LoginForm = LoginForm(
    email: string,
    password: string,
    error: string,
    captcha: CaptchaChallenge,
    captchaInput: string)

  const CaptchaError := "Incorrect CAPTCHA answer."
  const CredentialsError := "Invalid credentials. (Hint: admin@company.com / 12345)"

  /** What one submission leaves behind, and the user passed to `onLogin`, if any. */
  datatype Outcome = Outcome(form: LoginForm, store: Backend.Store, loggedIn: Option<AdminUser>)

  /**
    `handleSubmit`: a wrong answer never reaches the backend; right answer and
    wrong credentials leave the store as it was; right answer and right
    credentials log in and hand the stored session to `onLogin`. Both failures
    show their message and a fresh challenge with an empty answer. The random
    draws and the clock are parameters.
   */
  function HandleSubmit(f: LoginForm, st: Backend.Store, r1: real, r2: real, now: nat): (r: Outcome)
    requires Captcha.IsRandom(r1) && Captcha.IsRandom(r2)
    ensures r.form.error in {"", CaptchaError, CredentialsError}
    ensures r.form.email == f.email && r.form.password == f.password
    ensures r.loggedIn.Some? <==>
      Captcha.Accepted(f.captcha, f.captchaInput) && f.email == Backend.AdminEmail && f.password == Backend.AdminPassword
    ensures !Captcha.Accepted(f.captcha, f.captchaInput) ==>
      && r.store == st && r.form.error == CaptchaError
      && r.form.captcha == Captcha.Generate(r1, r2) && r.form.captchaInput == ""
    ensures Captcha.Accepted(f.captcha, f.captchaInput) && r.loggedIn.None? ==>
      && r.store == st && r.form.error == CredentialsError
      && r.form.captcha == Captcha.Generate(r1, r2) && r.form.captchaInput == ""
    ensures r.loggedIn.Some? ==>
      && r.form.error == "" && r.loggedIn.value.email == f.email
      && Backend.GetSession(r.store) == r.loggedIn && r.store.customers == st.customers
  {
    var cleared := f.(error := "");
    if !Captcha.Accepted(f.captcha, f.captchaInput) then
      Outcome(cleared.(error := CaptchaError, captcha := Captcha.Generate(r1, r2), captchaInput := ""), st, None)
    else
      var (st', user) := Backend.LoginAdmin(st, f.email, f.password, now);
      if user.Some? then
        Outcome(cleared, st', user)
      else
        Outcome(cleared.(error := CredentialsError, captcha := Captcha.Generate(r1, r2), captchaInput := ""), st', None)
  }
}
