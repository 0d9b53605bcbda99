/**
  The public requirement form: the per-field validation rules, the error map
  they produce, the clearing of one field's error when that field is edited,
  and what a submission does to the form and to the store.
 */
module PublicForm {
  import opened Common
  import opened Text
  import opened Types
  import Captcha
  import Backend

  /**
    A number input as the form state holds it: never touched (`undefined`),
    cleared by the user (the empty string), or a number.
   */
  datatype NumInput = Unset | Cleared | Entered(value: real)

  /** The form state: a record whose fields may still be missing. */
  datatype FormData = FormData(
    name: Option<string>,
    mobile: Option<string>,
    altMobile: Option<string>,
    email: Option<string>,
    budget: NumInput,
    requirement: Option<string>,
    currentLocation: Option<string>,
    preferredLocation: Option<string>,
    direction: Direction,
    floorPreference: NumInput,
    flatSize: NumInput,
    lookingFor: LookingFor)

  /** The form on first render and after a successful submission. */
  const InitialForm := FormData(None, None, None, None, Unset, None, None, None, North, Entered(1.0), Unset, Gated)

  /** The names of the form's inputs, plus the captcha answer. */
  datatype Field =
    | NameField | MobileField | AltMobileField | EmailField | BudgetField | RequirementField
    | CurrentLocationField | PreferredLocationField | DirectionField | FloorPreferenceField
    | FlatSizeField | LookingForField | CaptchaField

  /** The fields some validation rule checks. */
  const RuleFields: set<Field> := {
    NameField, MobileField, AltMobileField, EmailField, BudgetField, CurrentLocationField,
    PreferredLocationField, FloorPreferenceField, FlatSizeField, RequirementField, CaptchaField}

  /** The message each rule reports. */
  function Message(f: Field): string {
    match f
    case NameField => "Name must be at least 2 characters"
    case MobileField => "Enter a valid 10-digit Indian mobile number"
    case AltMobileField => "Enter a valid 10-digit mobile number"
    case EmailField => "Enter a valid email address"
    case BudgetField => "Please enter a valid positive budget amount"
    case CurrentLocationField => "Current location is required"
    case PreferredLocationField => "Preferred location is required"
    case FloorPreferenceField => "Enter a valid positive integer floor number"
    case FlatSizeField => "Enter a valid positive size"
    case RequirementField => "Please describe your requirement"
    case CaptchaField => "Incorrect calculation"
    case _ => ""
  }

  /** `/^[6-9]\d{9}$/`: ten digits, the first of them 6 to 9. */
  predicate IsMobile(s: string) {
    |s| == 10 && '6' <= s[0] <= '9' && AllDigits(s)
  }

  /** `[^\s@]+` without the length: no whitespace and no `@`. */
  predicate NoAtOrSpace(s: string) {
    forall i :: 0 <= i < |s| ==> !IsSpace(s[i]) && s[i] != '@'
  }

  /**
    `s` matches `^[^\s@]+@[^\s@]+\.[^\s@]+$` with the `@` at `i` and the
    chosen `.` at `j`.
   */
  predicate EmailSplit(s: string, i: int, j: int) {
    && 0 < i && i + 1 < j && j + 1 < |s|
    && s[i] == '@' && s[j] == '.'
    && NoAtOrSpace(s[..i]) && NoAtOrSpace(s[i + 1..j]) && NoAtOrSpace(s[j + 1..])
  }

  /** The email regular expression `/^[^\s@]+@[^\s@]+\.[^\s@]+$/`. */
  ghost predicate MatchesEmailPattern(s: string) {
    exists i, j :: EmailSplit(s, i, j)
  }

  /** The part after the `@` has a `.` that is neither its first nor its last character. */
  predicate HasInnerDot(d: string) {
    exists k | 1 <= k < |d| - 1 :: d[k] == '.'
  }

  /**
    The email check stated character by character: no whitespace, exactly
    one `@` with something before it, and an inner `.` after it.
   */
  predicate IsEmail(s: string) {
    && NoSpace(s)
    && exists i | 0 < i < |s| :: s[i] == '@' && '@' !in s[..i] && '@' !in s[i + 1..] && HasInnerDot(s[i + 1..])
  }

  /** The character-level check accepts exactly what the regular expression accepts. */
  lemma EmailCheckIsPattern(s: string)
    ensures IsEmail(s) <==> MatchesEmailPattern(s)
  {
    if IsEmail(s) {
      var i :| 0 < i < |s| && s[i] == '@' && '@' !in s[..i] && '@' !in s[i + 1..] && HasInnerDot(s[i + 1..]);
      EmailCheckGivesSplit(s, i);
    }
    if MatchesEmailPattern(s) {
      var i, j :| EmailSplit(s, i, j);
      EmailSplitGivesCheck(s, i, j);
    }
  }

  lemma EmailCheckGivesSplit(s: string, i: int)
    requires NoSpace(s)
    requires 0 < i < |s| && s[i] == '@' && '@' !in s[..i] && '@' !in s[i + 1..] && HasInnerDot(s[i + 1..])
    ensures MatchesEmailPattern(s)
  {
    var d := s[i + 1..];
    var k :| 1 <= k < |d| - 1 && d[k] == '.';
    var j := i + 1 + k;
    forall m | 0 <= m < |d|
      ensures !IsSpace(d[m]) && d[m] != '@'
    {
      assert d[m] == s[i + 1 + m];
      assert d[m] in d;
    }
    forall m | 0 <= m < i
      ensures !IsSpace(s[m]) && s[m] != '@'
    {
      assert s[m] in s[..i];
    }
    assert s[i + 1..j] == d[..k];
    assert s[j + 1..] == d[k + 1..];
    assert EmailSplit(s, i, j);
  }

  lemma EmailSplitGivesCheck(s: string, i: int, j: int)
    requires EmailSplit(s, i, j)
    ensures IsEmail(s)
  {
    forall m | 0 <= m < |s|
      ensures !IsSpace(s[m])
    {
      if m < i {
        assert s[m] == s[..i][m];
      } else if i < m < j {
        assert s[m] == s[i + 1..j][m - i - 1];
      } else if j < m {
        assert s[m] == s[j + 1..][m - j - 1];
      }
    }
    var d := s[i + 1..];
    assert '@' !in s[..i] by {
      forall m | 0 <= m < i
        ensures s[..i][m] != '@'
      {
      }
    }
    assert '@' !in d by {
      forall m | 0 <= m < |d|
        ensures d[m] != '@'
      {
        if m < j - i - 1 {
          assert d[m] == s[i + 1..j][m];
        } else if m > j - i - 1 {
          assert d[m] == s[j + 1..][m - (j - i)];
        }
      }
    }
    assert d[j - i - 1] == '.';
    assert HasInnerDot(d);
  }

  /** `Number.isInteger` on a finite number. */
  predicate IsInteger(v: real) {
    v.Floor as real == v
  }

  /**
    JavaScript's `Number(x)` on the held value: `undefined` is `NaN`
    (`None`), the empty string is 0.
   */
  function AsNumber(n: NumInput): Option<real> {
    match n
    case Unset => None
    case Cleared => Some(0.0)
    case Entered(v) => Some(v)
  }

  /**
    The floor rule as the source writes it: `x === undefined || x < 0 ||
    !Number.isInteger(Number(x))`, where a cleared input compares and converts
    as 0. A cleared input therefore passes.
   */
  function FloorErrorAsWritten(n: NumInput): (err: bool)
    ensures err <==> n.Unset? || (n.Entered? && (n.value < 0.0 || !IsInteger(n.value)))
  {
    || n.Unset?
    || (AsNumber(n).Some? && AsNumber(n).value < 0.0)
    || !(AsNumber(n).Some? && IsInteger(AsNumber(n).value))
  }

  /**
    The floor rule as intended: the floor must be a number, at least 0 and
    whole. A cleared input is an error like a missing one.
   */
  function FloorError(n: NumInput): (err: bool)
    ensures !err <==> n.Entered? && n.value >= 0.0 && IsInteger(n.value)
  {
    FloorErrorAsWritten(n) || n.Cleared?
  }

  /**
    The discrepancy on a concrete input: a cleared floor input passes the
    rule as written, so a form whose floor was cleared can be saved with the
    empty string as its floor; the intended rule rejects it.
   */
  lemma ClearedFloorPassesAsWritten()
    ensures !FloorErrorAsWritten(Cleared)
    ensures FloorError(Cleared)
  {
  }

  /** The two floor rules disagree exactly on a cleared input. */
  lemma FloorRulesDifferOnlyWhenCleared(n: NumInput)
    ensures FloorError(n) != FloorErrorAsWritten(n) <==> n.Cleared?
  {
  }

  /** `!x || x <= 0` on a number input: missing, cleared, zero or negative. */
  predicate NotPositive(n: NumInput) {
    !(n.Entered? && n.value > 0.0)
  }

  /** `!s` on a text field: missing or empty. */
  predicate Blank(s: Option<string>) {
    s.None? || s.value == ""
  }

  /**
    What each rule demands of a valid field. `validate` reports field `f`
    exactly when `f` is a rule field and this does not hold.
   */
  ghost predicate Accepts(f: Field, form: FormData, captcha: CaptchaChallenge, captchaInput: string) {
    match f
    case NameField => form.name.Some? && |form.name.value| >= 2
    case MobileField => form.mobile.Some? && IsMobile(form.mobile.value)
    case AltMobileField => form.altMobile.None? || form.altMobile.value == "" || IsMobile(form.altMobile.value)
    case EmailField => form.email.Some? && MatchesEmailPattern(form.email.value)
    case BudgetField => form.budget.Entered? && form.budget.value > 0.0
    case CurrentLocationField => form.currentLocation.Some? && form.currentLocation.value != ""
    case PreferredLocationField => form.preferredLocation.Some? && form.preferredLocation.value != ""
    case FloorPreferenceField =>
      form.floorPreference.Entered? && form.floorPreference.value >= 0.0 && IsInteger(form.floorPreference.value)
    case FlatSizeField => form.flatSize.Entered? && form.flatSize.value > 0.0
    case RequirementField => form.requirement.Some? && form.requirement.value != ""
    case CaptchaField => captchaInput != "" && ParseInt(captchaInput) == Some(captcha.answer)
    case _ => true
  }

  /**
    The checks `validate` runs, one per field, with the corrected floor check
    `FloorError`; `FailsAsWritten` has the floor check as the code writes it.
   */
  predicate Fails(f: Field, form: FormData, captcha: CaptchaChallenge, captchaInput: string) {
    match f
    case NameField => form.name.None? || |form.name.value| < 2
    case MobileField => form.mobile.None? || !IsMobile(form.mobile.value)
    case AltMobileField => !Blank(form.altMobile) && !IsMobile(form.altMobile.value)
    case EmailField => form.email.None? || !IsEmail(form.email.value)
    case BudgetField => NotPositive(form.budget)
    case CurrentLocationField => Blank(form.currentLocation)
    case PreferredLocationField => Blank(form.preferredLocation)
    case FloorPreferenceField => FloorError(form.floorPreference)
    case FlatSizeField => NotPositive(form.flatSize)
    case RequirementField => Blank(form.requirement)
    case CaptchaField => captchaInput == "" || !Captcha.Accepted(captcha, captchaInput)
    case _ => false
  }

  /** Each check fails exactly when its field does not meet the rule. */
  lemma FailsIffNotAccepts(form: FormData, captcha: CaptchaChallenge, captchaInput: string)
    ensures forall f :: Fails(f, form, captcha, captchaInput) <==> !Accepts(f, form, captcha, captchaInput)
  {
    if form.email.Some? {
      EmailCheckIsPattern(form.email.value);
    }
  }

  /**
    `validate`: the error map, one entry per rule field whose rule is not
    met, holding that rule's message.
   */
  function Validate(form: FormData, captcha: CaptchaChallenge, captchaInput: string): (errors: map<Field, string>)
    ensures errors.Keys <= RuleFields
    ensures forall f :: f in errors ==> errors[f] == Message(f)
    ensures forall f :: f in errors <==> f in RuleFields && !Accepts(f, form, captcha, captchaInput)
  {
    FailsIffNotAccepts(form, captcha, captchaInput);
    map f | f in RuleFields && Fails(f, form, captcha, captchaInput) :: Message(f)
  }

  /** The checks `validate` runs, with the floor check exactly as the code writes it. */
  predicate FailsAsWritten(f: Field, form: FormData, captcha: CaptchaChallenge, captchaInput: string) {
    if f == FloorPreferenceField then FloorErrorAsWritten(form.floorPreference)
    else Fails(f, form, captcha, captchaInput)
  }

  /**
    `validate` with the floor check exactly as the code writes it. It reports
    what `Validate` reports, except that it keeps quiet about a cleared floor
    input.
   */
  function ValidateAsWritten(form: FormData, captcha: CaptchaChallenge, captchaInput: string): (errors: map<Field, string>)
    ensures forall f :: f in errors ==> errors[f] == Message(f)
    ensures forall f :: f in errors <==>
      f in Validate(form, captcha, captchaInput) && !(f == FloorPreferenceField && form.floorPreference.Cleared?)
  {
    FloorRulesDifferOnlyWhenCleared(form.floorPreference);
    map f | f in RuleFields && FailsAsWritten(f, form, captcha, captchaInput) :: Message(f)
  }

  /**
    The as-written `validate()` returns true for a form whose floor input was
    cleared, as long as the rest of the form is valid; the intended rules
    reject that form.
   */
  lemma ClearedFloorValidatesAsWritten(form: FormData, captcha: CaptchaChallenge, captchaInput: string)
    requires Validate(form, captcha, captchaInput) == map[]
    ensures ValidateAsWritten(form.(floorPreference := Cleared), captcha, captchaInput) == map[]
    ensures Validate(form.(floorPreference := Cleared), captcha, captchaInput) == map[FloorPreferenceField := Message(FloorPreferenceField)]
  {
    var cleared := form.(floorPreference := Cleared);
    var e, e' := Validate(form, captcha, captchaInput), Validate(cleared, captcha, captchaInput);
    forall f | f != FloorPreferenceField
      ensures f !in e'
    {
      assert f !in e;
      OnlyFloorRuleReadsFloor(f, form, Cleared, captcha, captchaInput);
    }
    assert FloorPreferenceField in e';
  }

  /** Every rule but the floor rule ignores the floor input. */
  lemma OnlyFloorRuleReadsFloor(f: Field, form: FormData, floor: NumInput, captcha: CaptchaChallenge, captchaInput: string)
    requires f != FloorPreferenceField
    ensures Accepts(f, form.(floorPreference := floor), captcha, captchaInput) == Accepts(f, form, captcha, captchaInput)
  {
  }

  /** `validate()` returning true: no rule failed. */
  predicate IsValid(form: FormData, captcha: CaptchaChallenge, captchaInput: string) {
    Validate(form, captcha, captchaInput) == map[]
  }

  /** `validate()` returns true exactly when every rule field meets its rule. */
  lemma ValidIffAllAccepted(form: FormData, captcha: CaptchaChallenge, captchaInput: string)
    ensures IsValid(form, captcha, captchaInput) <==> forall f :: f in RuleFields ==> Accepts(f, form, captcha, captchaInput)
  {
    var e := Validate(form, captcha, captchaInput);
    if forall f :: f in RuleFields ==> Accepts(f, form, captcha, captchaInput) {
      assert e.Keys == {};
    } else {
      var f :| f in RuleFields && !Accepts(f, form, captcha, captchaInput);
      assert f in e;
    }
  }

  /** Every field a record needs is present in the form, with a usable value. */
  predicate Complete(form: FormData) {
    && form.name.Some? && form.mobile.Some? && form.email.Some? && form.budget.Entered?
    && form.requirement.Some? && form.currentLocation.Some? && form.preferredLocation.Some?
    && form.floorPreference.Entered? && form.flatSize.Entered?
  }

  /** A form that passes validation has every field a record needs. */
  lemma ValidIsComplete(form: FormData, captcha: CaptchaChallenge, captchaInput: string)
    requires IsValid(form, captcha, captchaInput)
    ensures Complete(form)
  {
    var e := Validate(form, captcha, captchaInput);
    assert NameField !in e && MobileField !in e && EmailField !in e && BudgetField !in e;
    assert FloorPreferenceField !in e && FlatSizeField !in e && RequirementField !in e;
  }

  /** The form that holds exactly the given details. */
  function FromDetails(d: Details): (form: FormData)
    ensures Complete(form)
  {
    FormData(
      Some(d.name), Some(d.mobile), d.altMobile, Some(d.email), Entered(d.budget),
      Some(d.requirement), Some(d.currentLocation), Some(d.preferredLocation),
      d.direction, Entered(d.floorPreference), Entered(d.flatSize), d.lookingFor)
  }

  /**
    `formData as CustomerRequirement`: the submitted details, taken verbatim;
    the form can be rebuilt from them exactly.
   */
  function ToDetails(form: FormData): (d: Details)
    requires Complete(form)
    ensures FromDetails(d) == form
  {
    Details(
      form.name.value, form.mobile.value, form.altMobile, form.email.value, form.budget.value,
      form.requirement.value, form.currentLocation.value, form.preferredLocation.value,
      form.direction, form.floorPreference.value, form.flatSize.value, form.lookingFor)
  }

  /** Details survive the trip through the form. */
  lemma DetailsRoundTrip(d: Details)
    ensures ToDetails(FromDetails(d)) == d
  {
  }

  datatype SubmitStatus = Idle | Succeeded | Failed

  /** The whole component state of the form. */
  datatype FormState = FormState(
    form: FormData,
    captcha: CaptchaChallenge,
    captchaInput: string,
    errors: map<Field, string>,
    status: SubmitStatus)

  /** The value an input holds, as a change event delivers it. */
  datatype FieldValue = Text(text: string) | Number(number: NumInput) | Facing(direction: Direction) | Kind(kind: LookingFor)

  /** The value the form holds for `f`; `None` for a text field never typed in. */
  function Get(form: FormData, f: Field): Option<FieldValue> {
    match f
    case NameField => if form.name.Some? then Some(Text(form.name.value)) else None
    case MobileField => if form.mobile.Some? then Some(Text(form.mobile.value)) else None
    case AltMobileField => if form.altMobile.Some? then Some(Text(form.altMobile.value)) else None
    case EmailField => if form.email.Some? then Some(Text(form.email.value)) else None
    case RequirementField => if form.requirement.Some? then Some(Text(form.requirement.value)) else None
    case CurrentLocationField => if form.currentLocation.Some? then Some(Text(form.currentLocation.value)) else None
    case PreferredLocationField => if form.preferredLocation.Some? then Some(Text(form.preferredLocation.value)) else None
    case BudgetField => Some(Number(form.budget))
    case FloorPreferenceField => Some(Number(form.floorPreference))
    case FlatSizeField => Some(Number(form.flatSize))
    case DirectionField => Some(Facing(form.direction))
    case LookingForField => Some(Kind(form.lookingFor))
    case CaptchaField => None
  }

  /**
    A change event of input `f` can carry `v`: text inputs deliver text,
    number inputs the empty string or a number, radios their option.
   */
  predicate Fits(f: Field, v: FieldValue) {
    match f
    case BudgetField | FloorPreferenceField | FlatSizeField => v.Number? && !v.number.Unset?
    case DirectionField => v.Facing?
    case LookingForField => v.Kind?
    case CaptchaField => false
    case _ => v.Text?
  }

  /** The form with input `f` set to `v`. */
  function Set(form: FormData, f: Field, v: FieldValue): FormData
    requires Fits(f, v)
  {
    match f
    case NameField => form.(name := Some(v.text))
    case MobileField => form.(mobile := Some(v.text))
    case AltMobileField => form.(altMobile := Some(v.text))
    case EmailField => form.(email := Some(v.text))
    case RequirementField => form.(requirement := Some(v.text))
    case CurrentLocationField => form.(currentLocation := Some(v.text))
    case PreferredLocationField => form.(preferredLocation := Some(v.text))
    case BudgetField => form.(budget := v.number)
    case FloorPreferenceField => form.(floorPreference := v.number)
    case FlatSizeField => form.(flatSize := v.number)
    case DirectionField => form.(direction := v.direction)
    case LookingForField => form.(lookingFor := v.kind)
  }

  /**
    `handleChange`: input `f` takes the new value and only `f`'s error is
    cleared; every other input and every other error stays as it was.
   */
  function HandleChange(s: FormState, f: Field, v: FieldValue): (r: FormState)
    requires Fits(f, v)
    ensures Get(r.form, f) == Some(v)
    ensures forall g :: g != f ==> Get(r.form, g) == Get(s.form, g)
    ensures r.errors.Keys == s.errors.Keys - {f}
    ensures forall g :: g in r.errors ==> r.errors[g] == s.errors[g]
    ensures r.captcha == s.captcha && r.captchaInput == s.captchaInput && r.status == s.status
  {
    var errors := if f in s.errors then s.errors - {f} else s.errors;
    s.(form := Set(s.form, f, v), errors := errors)
  }

  /**
    Typing in the captcha box: the answer text changes and only the captcha
    error is cleared.
   */
  function HandleCaptchaInput(s: FormState, text: string): (r: FormState)
    ensures r.captchaInput == text
    ensures r.errors.Keys == s.errors.Keys - {CaptchaField}
    ensures forall g :: g in r.errors ==> r.errors[g] == s.errors[g]
    ensures r.form == s.form && r.captcha == s.captcha && r.status == s.status
  {
    var errors := if CaptchaField in s.errors then s.errors - {CaptchaField} else s.errors;
    s.(captchaInput := text, errors := errors)
  }

  /** `refreshCaptcha`: a fresh challenge from two random draws, and an empty answer. */
  function RefreshCaptcha(s: FormState, r1: real, r2: real): (r: FormState)
    requires Captcha.IsRandom(r1) && Captcha.IsRandom(r2)
    ensures Captcha.WellFormed(r.captcha) && r.captchaInput == ""
    ensures r.form == s.form && r.errors == s.errors && r.status == s.status
  {
    s.(captcha := Captcha.Generate(r1, r2), captchaInput := "")
  }

  /**
    `handleSubmit`: a form that fails validation only gets its error map (the
    challenge is kept); a valid form is saved as a new lead in front of the
    list, and the form goes back to its initial values with a fresh challenge,
    an empty answer and no errors. The id and timestamp of the new lead and
    the two random draws are parameters.
   */
  function HandleSubmit(s: FormState, st: Backend.Store, id: string, now: string, r1: real, r2: real): (r: (FormState, Backend.Store))
    requires Captcha.IsRandom(r1) && Captcha.IsRandom(r2)
    ensures !IsValid(s.form, s.captcha, s.captchaInput) ==>
      && r.1 == st
      && r.0.errors == Validate(s.form, s.captcha, s.captchaInput)
      && r.0.form == s.form && r.0.captcha == s.captcha && r.0.captchaInput == s.captchaInput
      && r.0.status == s.status
    ensures IsValid(s.form, s.captcha, s.captchaInput) ==>
      && Complete(s.form)
      && Backend.Stored(r.1) == [CustomerRequirement(id, ToDetails(s.form), now, New)] + Backend.Stored(st)
      && r.1.session == st.session
      && r.0.form == InitialForm && r.0.errors == map[] && r.0.captchaInput == ""
      && Captcha.WellFormed(r.0.captcha) && r.0.status == Succeeded
  {
    var errors := Validate(s.form, s.captcha, s.captchaInput);
    if errors != map[] then
      (s.(errors := errors), st)
    else
      ValidIsComplete(s.form, s.captcha, s.captchaInput);
      var st' := Backend.SaveCustomer(st, ToDetails(s.form), id, now);
      var s' := FormState(InitialForm, Captcha.Generate(r1, r2), "", map[], Succeeded);
      assert Backend.Stored(st') == [Backend.Stored(st')[0]] + Backend.Stored(st')[1..];
      (s', st')
  }
}
