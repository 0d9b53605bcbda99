/**
  The shapes the application passes around: a customer's requirement record
  (a lead), the dashboard's filter criteria, an admin session and an
  arithmetic captcha challenge, with their closed enumerations.
 */
module Types {
  import opened Common

  /** The direction the flat should face. */
  datatype Direction = North | South | East | West

  /** The kind of property the customer is looking for. */
  datatype LookingFor = Gated | SemiGated | Standalone

  /** Where a lead stands in the admin's triage. */
  datatype Status = New | Contacted | Closed | Spam

  /** The text the application uses for each status (shown and exported). */
  function StatusName(s: Status): string {
    match s
    case New => "New"
    case Contacted => "Contacted"
    case Closed => "Closed"
    case Spam => "Spam"
  }

  /** The text the application uses for each property kind. */
  function LookingForName(l: LookingFor): string {
    match l
    case Gated => "Gated"
    case SemiGated => "Semi-gated"
    case Standalone => "Standalone"
  }

  /**
    The fields a customer submits: everything in a record except the id, the
    creation time and the status. `altMobile` is the only optional field.
   */
  datatype Details = Details(
    name: string,
    mobile: string,
    altMobile: Option<string>,
    email: string,
    budget: real,
    requirement: string,
    currentLocation: string,
    preferredLocation: string,
    direction: Direction,
    floorPreference: real,
    flatSize: real,
    lookingFor: LookingFor)

  /** A stored lead: the submitted details plus what the store adds. */
  datatype CustomerRequirement = CustomerRequirement(
    id: string,
    details: Details,
    createdAt: string,
    status: Status)

  /**
    The dashboard's filter criteria. Every criterion is the raw text of its
    control, and the empty string means the criterion is unset.
   */
  datatype FilterState = FilterState(
    search: string,
    status: string,
    lookingFor: string,
    minBudget: string,
    maxBudget: string)

  /** The filter with every criterion unset. */
  const NoFilter := FilterState("", "", "", "", "")

  /** A logged-in admin. */
  datatype AdminUser = AdminUser(email: string, token: string)

  /** An arithmetic captcha: the user must type `answer` for `num1 + num2`. */
  datatype CaptchaChallenge = CaptchaChallenge(num1: int, num2: int, answer: int)
}
