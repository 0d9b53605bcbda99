# ILandSpaces lead capture, modelled in Dafny

ILandSpaces is a small real-estate lead-capture web app. Prospective buyers
fill in a public requirement form, which is protected by an arithmetic
captcha. The form is validated field by field and the lead is saved to a
mock backend kept in browser storage. An admin logs in (again behind a
captcha) to a dashboard. There they filter the leads by text, status, type
and budget range, export the filtered list as CSV, move a lead from `New`
to `Contacted` or `Closed`, and delete leads. Every change asks for
confirmation first.

This project models that core as pure Dafny functions over immutable values:

| file | module | what it models |
|---|---|---|
| `common.dfy` | `Common` | `Option`, order-preserving `Filter` (`Array.prototype.filter`), subsequences |
| `text.dfy` | `Text` | JavaScript string pieces: the `\s` class, ASCII `toLowerCase`, `includes`, `parseInt`, `Number()`, `join`/`split` |
| `types.dfy` | `Types` | the records of `types.ts` |
| `captcha.dfy` | `Captcha` | `generateCaptcha` (used by both forms) and the answer check |
| `backend.dfy` | `Backend` | `services/mockBackend.ts`: the lead list, the admin session |
| `public_form.dfy` | `PublicForm` | validation, change handling and submission of the public form |
| `admin_login.dfy` | `AdminLogin` | the admin login submission |
| `admin_dashboard.dfy` | `AdminDashboard` | filtering, CSV export, status actions, confirmation-gated changes |
| `input.dfy` | `Input` | the id an input control derives from its label |

The browser storage is a `Backend.Store` value that holds two things:

- the lead list, which is `None` until it is first written;
- the admin session, if any.

Every backend operation returns the store it leaves behind. The clock
(`Date.now()`, `new Date().toISOString()`), `Math.random()`, the generated
lead id and the user's answer to `window.confirm` are parameters.

Two behaviours of the code are easy to miss:

- A public form that fails validation keeps its captcha challenge. Only a
  successful submission or the refresh button replaces it.
- The CSV export puts the name and the two locations between double quotes
  but escapes nothing. A quote, comma or newline inside a field therefore
  breaks the column and line structure. The model only proves the export's
  shape under the condition that no field holds a comma or a newline.

The floor check of the public form lets a cleared floor input through (see
"## Findings"). The model keeps that check as written in
`PublicForm.ValidateAsWritten`, and its `PublicForm.Validate` uses the
corrected check.

## Model

| member | source | states |
|---|---|---|
| Backend.GetCustomers | services/mockBackend.ts:12-19 | returns the stored list, or an empty list the first time; afterwards the store holds exactly what was returned, and the session is untouched |
| Backend.GetCustomersStable | services/mockBackend.ts:12-19 | a second read sees exactly what the first one left |
| Backend.SaveCustomer | services/mockBackend.ts:21-36 | the list grows by one; the new head carries the submitted details, the given id and timestamp, and status `New`; the rest of the list is the old list |
| Backend.SetStatus | services/mockBackend.ts:40 | same length; every record with the id gets the new status; every other record is unchanged; ids, details and dates are never touched |
| Backend.RemoveId | services/mockBackend.ts:47 | keeps, in order, exactly the records whose id differs, each as many times as it occurs in the list; every record with that id is gone |
| Backend.UpdateCustomerStatus | services/mockBackend.ts:38-43 | the stored and returned list is the status-rewritten list; the session is kept |
| Backend.DeleteCustomer | services/mockBackend.ts:45-50 | the stored and returned list is the list without the id; the session is kept |
| Backend.SetStatusAbsent | services/mockBackend.ts:40 | rewriting the status of an id no record carries is the identity |
| Backend.RemoveAbsent | services/mockBackend.ts:47 | removing an id no record carries is the identity |
| Backend.RemovedIdGone | services/mockBackend.ts:47 | after a removal no record carries the id |
| Backend.SetStatusOverrides | services/mockBackend.ts:40 | a second status update of the same id overrides the first |
| Backend.DeleteIdempotent | services/mockBackend.ts:45-50 | deleting twice equals deleting once |
| Backend.UpdateAbsentIsNoop | services/mockBackend.ts:38-43 | updating an id that is not stored leaves the list as it was |
| Backend.UpdateAfterDelete | services/mockBackend.ts:38-50 | updating a deleted id changes nothing further |
| Backend.LoginAdmin | services/mockBackend.ts:54-70 | succeeds iff the email is `admin@company.com` and the password `12345`; on success the session for that email is stored, with token `mock-jwt-token-` followed by the clock reading, and the leads are kept; on failure the store is unchanged |
| Backend.LoginThenLogout | services/mockBackend.ts:54-79 | after a successful login `getSession` returns the stored user; after the following logout it returns nothing; the leads are kept throughout |
| Backend.LogoutAdmin | services/mockBackend.ts:77-79 | afterwards `getSession` finds no session; the leads are kept |
| Backend.GetSession | services/mockBackend.ts:72-75 | a session is returned iff one is stored; in a store whose session came from a login, it is the admin's email with a token of `mock-jwt-token-` and digits |
| Backend.OperationsKeepSessionIssued | services/mockBackend.ts:12-79 | starting from the empty store, every operation leaves no session or one that `loginAdmin` could have issued |
| Captcha.Operand | components/PublicForm.tsx:9-10 | `Math.floor(Math.random() * 10) + 1` lies in 1..10 |
| Captcha.Generate | components/PublicForm.tsx:8-12 | operands in 1..10, answer their sum, so the answer lies in 2..20 |
| Captcha.EveryChallengeReachable | components/AdminLogin.tsx:12-16 | every challenge of that shape comes from some pair of random draws |
| Captcha.AcceptedExactly | components/AdminLogin.tsx:33 | typing the decimal text of a number passes the check iff the number is the answer |
| Text.ParseInt | components/PublicForm.tsx:68 | `parseInt` gives a number iff, after the leading whitespace, the text starts with a digit or with a sign and a digit; without a leading `-` the number is not negative |
| Text.ParseIntReads | components/PublicForm.tsx:68 | `parseInt` of whitespace, an optional `+` or `-`, the decimal text of n and any rest not starting with a digit is n with that sign, read exactly; the whitespace and the rest are ignored |
| Text.ParseIntDecimal | components/AdminLogin.tsx:33 | `parseInt` reads back the decimal text of every natural number, exactly |
| Text.ParseNumberReads | components/AdminDashboard.tsx:85-86 | `Number` of an optionally signed literal `whole.frac` is exactly whole + frac / 10^(number of fraction digits), with the sign applied |
| Text.ParseNumberDecimal | components/AdminDashboard.tsx:85-86 | `Number` reads back the decimal text of every natural number, exactly |
| Text.Lower | components/AdminDashboard.tsx:77-79 | same length; each character lower-cased on its own; whitespace stays whitespace |
| Text.ContainsTransitive | components/AdminDashboard.tsx:77-79 | if `c` includes `b` and `b` includes `a`, then `c` includes `a` |
| Text.SplitJoin | components/AdminDashboard.tsx:54-65 | splitting the join of parts that do not contain the separator gives back the parts |
| PublicForm.EmailCheckIsPattern | components/PublicForm.tsx:46-47 | the character-level email check accepts exactly the strings matching `^[^\s@]+@[^\s@]+\.[^\s@]+$` |
| PublicForm.FloorErrorAsWritten | components/PublicForm.tsx:57-59 | the floor rule as written: an error iff the input is missing, or is a number that is negative or not whole; a cleared input passes |
| PublicForm.FloorError | components/PublicForm.tsx:57-59 | the intended floor rule: no error iff a number was entered, it is at least 0 and it is whole |
| PublicForm.ClearedFloorPassesAsWritten | components/PublicForm.tsx:57-59 | a cleared floor input passes the rule as written and fails the intended rule |
| PublicForm.FloorRulesDifferOnlyWhenCleared | components/PublicForm.tsx:57-59 | the two floor rules disagree exactly on a cleared input |
| PublicForm.FailsIffNotAccepts | components/PublicForm.tsx:36-68 | each check `validate` runs, with the corrected floor check (`FloorError`) in place of the code's, fails exactly when its field does not meet its rule: the email check fails exactly when the email does not match `^[^\s@]+@[^\s@]+\.[^\s@]+$`; the captcha check fails exactly when the answer is empty or does not `parseInt` to the sum |
| PublicForm.Validate | components/PublicForm.tsx:32-78 | only rule fields appear, each with its rule's message; a rule field appears iff it does not meet its rule: name of 2 or more characters; mobile matching `^[6-9]\d{9}$`; the alternative mobile absent, empty or matching too; the email pattern; positive budget and flat size; both locations and the requirement present and non-empty; a whole floor of at least 0; the captcha answer |
| PublicForm.ValidIffAllAccepted | components/PublicForm.tsx:32-78 | `validate()` returns true iff every rule field meets its rule |
| PublicForm.ValidateAsWritten | components/PublicForm.tsx:32-78 | with the floor check as written, `validate` reports the same fields, except that a cleared floor input is not reported |
| PublicForm.ClearedFloorValidatesAsWritten | components/PublicForm.tsx:57-59 | with the floor check as written, `validate()` returns true for a form whose floor input was cleared if the rest of the form is valid; the corrected check reports the floor alone |
| PublicForm.ValidIsComplete | components/PublicForm.tsx:100-106 | a form that passes validation holds every field a saved record needs |
| PublicForm.ToDetails | components/PublicForm.tsx:106 | the saved details hold the form's values verbatim: rebuilding a form from them gives back exactly the form |
| PublicForm.DetailsRoundTrip | components/PublicForm.tsx:106 | details survive the trip through the form |
| PublicForm.HandleChange | components/PublicForm.tsx:80-96 | the edited input holds the new value; every other input keeps its value; exactly that input's error is removed; the other errors keep their messages |
| PublicForm.HandleCaptchaInput | components/PublicForm.tsx:337-340 | the answer text is replaced; only the captcha error is removed |
| PublicForm.RefreshCaptcha | components/PublicForm.tsx:27-30 | a well-formed fresh challenge and an empty answer; the form and errors are kept |
| PublicForm.HandleSubmit | components/PublicForm.tsx:98-122 | an invalid form only receives its error map and the store is unchanged; a valid form is saved as a new `New` lead in front of the list, and the form returns to its initial values with no errors, an empty answer, a fresh challenge and status success |
| AdminLogin.HandleSubmit | components/AdminLogin.tsx:28-56 | the session is handed over iff the captcha is accepted and the credentials are right; a wrong answer never reaches the backend; each failure shows its message, leaves the store as it was and replaces the challenge and answer; the email and password inputs are kept |
| AdminDashboard.FilterCustomers | components/AdminDashboard.tsx:74-90 | an order-preserving subsequence holding exactly the leads that meet all five criteria, each matching lead as many times as it occurs in the list; an empty criterion admits everything; the budget bounds are inclusive; a bound that is not a number admits nothing |
| AdminDashboard.NoFilterShowsAll | components/AdminDashboard.tsx:10-16 | with the initial, empty filters every lead is shown, in order |
| AdminDashboard.TighterMatches | components/AdminDashboard.tsx:76-88 | a lead that meets tighter criteria meets the looser ones |
| AdminDashboard.FilterMonotonic | components/AdminDashboard.tsx:74-90 | tighter criteria show a subsequence of what looser criteria show |
| AdminDashboard.CsvLines | components/AdminDashboard.tsx:52-64 | one header line with the eight column titles, then one line per lead, in order |
| AdminDashboard.ExportCsv | components/AdminDashboard.tsx:47-65 | nothing for an empty list; otherwise the lines joined by newlines |
| AdminDashboard.ExportLines | components/AdminDashboard.tsx:53-65 | if no field holds a newline, the export splits back into the header and one line per lead |
| AdminDashboard.RowColumns | components/AdminDashboard.tsx:55-64 | if no field holds a comma, a lead's line splits back into its eight columns: name and both locations between unescaped double quotes, mobile, email and status as they are |
| AdminDashboard.Actions | components/AdminDashboard.tsx:234-253 | "Contacted" is offered iff the lead is `New`; "Closed" is offered iff it is not `Closed`; nothing else is offered |
| AdminDashboard.ActionsAdvance | components/AdminDashboard.tsx:234-253 | every offered action moves a lead strictly forward; nothing leaves `Closed`; no action yields `New` or `Spam` |
| AdminDashboard.PathsFromNew | components/AdminDashboard.tsx:234-253 | from `New` the actions allow at most two changes, never reach `Spam` and never return to `New` |
| AdminDashboard.HandleStatusChange | components/AdminDashboard.tsx:31-38 | without confirmation the store is untouched; with it, the list is the status-rewritten list and the session is kept |
| AdminDashboard.HandleDelete | components/AdminDashboard.tsx:40-45 | without confirmation the store is untouched; with it, the list is the list without the id and the session is kept |
| Input.CollapseSpaces | components/ui/Input.tsx:9 | the result holds no whitespace and is no longer than the input |
| Input.InputId | components/ui/Input.tsx:9 | a non-empty explicit id is used as is; otherwise the derived id holds no whitespace and is no longer than the label |
| Input.DerivedIdNoSpace | components/ui/Input.tsx:9 | a label without whitespace becomes its lower-cased self |
| Input.RunBecomesOneDash | components/ui/Input.tsx:9 | a maximal whitespace run between two texts becomes exactly one `-` between their conversions |
| Input.CollapseSpacesScan | components/ui/Input.tsx:9 | a single left-to-right scan that emits `-` at the start of each whitespace run computes the same id |

## Left out

- Rendering, routing (`App.tsx`), loading spinners, the scroll after a failed validation and the network delays (`setTimeout`) are not modelled.
- The JSON encoding of `localStorage` is abstracted: the store holds the values themselves.
- The `catch` branches (`'error'` status, "An error occurred") are not modelled. The mock backend never rejects.
- `saveCustomer`'s resolved `true` is not modelled.
- The random id and ISO timestamp `saveCustomer` generates are parameters, so id uniqueness is not guaranteed by the model. The backend lemmas treat every record carrying the id.
- The CSV download (the `Blob`, the link and the file name) is not modelled. The budget's number-to-text conversion and `toLocaleDateString` are parameters of the export.
- The confirmation prompt texts are not modelled; only the user's answer is.
- No code path produces status `Spam`, so the model has no operation for it either.
- Text.Lower: lower-cases ASCII letters only; the full Unicode case mapping of `toLowerCase` is not modelled.
- Text.ParseInt: decimal only; the `0x` hexadecimal prefix of `parseInt` is not modelled.
- Text.ParseIntReads: numbers are read exactly as integers, while JavaScript rounds to the nearest double; the two agree only for magnitudes up to 2^53 (`parseInt("9007199254740993")` is 9007199254740992 in JavaScript).
- Text.ParseIntDecimal: exact for every natural number; JavaScript agrees only up to 2^53.
- Text.ParseNumberReads: the value is the exact rational; JavaScript's `Number` returns the nearest double (`Number("0.1")` is not exactly 1/10).
- Text.ParseNumberDecimal: exact for every natural number; JavaScript agrees only up to 2^53.
- AdminDashboard.FilterCustomers: budgets and bounds are compared as exact reals, not doubles; a budget and a bound that differ only beyond double precision can compare differently from the browser; and a bound written with an exponent, such as `1e6`, which a number input accepts, reads as NaN in the model (see `Text.ParseNumber`), so the model's filter shows no lead where the browser reads the bound as 1000000.
- PublicForm.FailsIffNotAccepts: the floor arm of the checks is the corrected rule `FloorError`, not the floor check as the code writes it (`PublicForm.FailsAsWritten`); see the `PublicForm.Validate` lines.
- Budgets, flat sizes and floors are exact reals in the model; JavaScript holds them as doubles.
- Text.ParseNumber: trimmed decimal text with an optional sign and fraction; exponents, `Infinity`, hexadecimal and binary forms are read as `NaN`.
- PublicForm.Validate: the name length counts characters, not UTF-16 code units.
- PublicForm.Validate: uses the corrected floor check, so a cleared floor input is reported; the code as written lets it pass (`PublicForm.ValidateAsWritten`). The floor input carries `required` (components/PublicForm.tsx:263, passed on by components/ui/Input.tsx:24), so the browser's own constraint check normally stops such a submit before `handleSubmit` runs. The browser's constraint checks are not modelled.
- PublicForm.ValidIffAllAccepted: stated for the corrected floor check, as `PublicForm.Validate` is.
- PublicForm.ValidIsComplete: stated for the corrected floor check; with the check as written, a valid form may hold a cleared floor, which a `Details` record cannot carry.
- PublicForm.HandleSubmit: saves only forms that pass the corrected floor check; the code as written would save a cleared floor as the empty string.
- Number inputs are modelled as holding either the empty string or a number, which is what the browser delivers for an input of type number.

## Findings

| source | as written | input that shows it | evidently intended | confidence | as-written member | corrected member |
|---|---|---|---|---|---|---|
| components/PublicForm.tsx:57-59 | the floor rule is `x === undefined \|\| x < 0 \|\| !Number.isInteger(Number(x))`; a cleared number input stores `''` (line 85), for which `'' < 0` is false and `Number('')` is the integer 0 | a form whose every other field is valid and whose floor input was cleared to `''`: `validate()` returns true. The `required` attribute on the floor input (line 263) normally makes the browser refuse the submit first, so the lead is only saved if that browser check is bypassed | a cleared floor is an error, like a missing one, since the message asks for a whole floor number | not executed | PublicForm.ClearedFloorValidatesAsWritten | PublicForm.FloorError |
