/**
  The admin dashboard: which leads the filter shows, the CSV text the export
  builds from them, which status actions a row offers, and the confirmation
  that gates every change to the store.
 */
module AdminDashboard {
  import opened Common
  import opened Text
  import opened Types
  import Backend

  /**
    The search criterion: the lower-cased search text occurs in the
    lower-cased name, current location or preferred location.
   */
  predicate MatchesSearch(c: CustomerRequirement, search: string) {
    var q := Lower(search);
    || Contains(Lower(c.details.name), q)
    || Contains(Lower(c.details.currentLocation), q)
    || Contains(Lower(c.details.preferredLocation), q)
  }

  /** `bound ? budget >= Number(bound) : true`; a bound that is not a number (`NaN`) admits nothing. */
  predicate AboveMin(budget: real, bound: string) {
    bound == "" || (ParseNumber(bound).Some? && budget >= ParseNumber(bound).value)
  }

  /** `bound ? budget <= Number(bound) : true`; a bound that is not a number (`NaN`) admits nothing. */
  predicate BelowMax(budget: real, bound: string) {
    bound == "" || (ParseNumber(bound).Some? && budget <= ParseNumber(bound).value)
  }

  /** All five criteria at once. */
  predicate Matches(c: CustomerRequirement, f: FilterState) {
    && MatchesSearch(c, f.search)
    && (f.status == "" || StatusName(c.status) == f.status)
    && (f.lookingFor == "" || LookingForName(c.details.lookingFor) == f.lookingFor)
    && AboveMin(c.details.budget, f.minBudget)
    && BelowMax(c.details.budget, f.maxBudget)
  }

  /**
    `filteredCustomers`: the leads that meet every criterion, in list order.
    An empty status or type criterion lets every lead through; a non-empty
    one must equal the lead's value exactly; the budget bounds are inclusive.
   */
  function FilterCustomers(cs: seq<CustomerRequirement>, f: FilterState): (r: seq<CustomerRequirement>)
    ensures IsSubsequence(r, cs)
    ensures forall c :: c in r <==>
      && c in cs
      && MatchesSearch(c, f.search)
      && (f.status == "" || StatusName(c.status) == f.status)
      && (f.lookingFor == "" || LookingForName(c.details.lookingFor) == f.lookingFor)
      && AboveMin(c.details.budget, f.minBudget)
      && BelowMax(c.details.budget, f.maxBudget)
    ensures forall c :: multiset(r)[c] == if Matches(c, f) then multiset(cs)[c] else 0
  {
    Filter(cs, (c: CustomerRequirement) => Matches(c, f))
  }

  /** With no criterion set, every lead is shown, in list order. */
  lemma NoFilterShowsAll(cs: seq<CustomerRequirement>)
    ensures FilterCustomers(cs, NoFilter) == cs
  {
    forall i | 0 <= i < |cs|
      ensures Matches(cs[i], NoFilter)
    {
      ContainsEmpty(Lower(cs[i].details.name));
    }
    FilterKeepsAll(cs, (c: CustomerRequirement) => Matches(c, NoFilter));
  }

  /**
    `strict` asks at least as much as `loose`: its search text contains
    `loose`'s (ignoring case), it sets every status and type criterion
    `loose` sets to the same value, and its budget bounds are at least as
    narrow.
   */
  predicate Tighter(strict: FilterState, loose: FilterState) {
    && Contains(Lower(strict.search), Lower(loose.search))
    && (loose.status == "" || strict.status == loose.status)
    && (loose.lookingFor == "" || strict.lookingFor == loose.lookingFor)
    && (|| loose.minBudget == ""
        || strict.minBudget == loose.minBudget
        || (&& strict.minBudget != "" && ParseNumber(strict.minBudget).Some?
            && ParseNumber(loose.minBudget).Some?
            && ParseNumber(strict.minBudget).value >= ParseNumber(loose.minBudget).value))
    && (|| loose.maxBudget == ""
        || strict.maxBudget == loose.maxBudget
        || (&& strict.maxBudget != "" && ParseNumber(strict.maxBudget).Some?
            && ParseNumber(loose.maxBudget).Some?
            && ParseNumber(strict.maxBudget).value <= ParseNumber(loose.maxBudget).value))
  }

  /** A lead that meets tighter criteria meets the looser ones. */
  lemma TighterMatches(c: CustomerRequirement, strict: FilterState, loose: FilterState)
    requires Tighter(strict, loose)
    requires Matches(c, strict)
    ensures Matches(c, loose)
  {
    var qs, ql := Lower(strict.search), Lower(loose.search);
    if Contains(Lower(c.details.name), qs) {
      ContainsTransitive(Lower(c.details.name), qs, ql);
    } else if Contains(Lower(c.details.currentLocation), qs) {
      ContainsTransitive(Lower(c.details.currentLocation), qs, ql);
    } else {
      ContainsTransitive(Lower(c.details.preferredLocation), qs, ql);
    }
  }

  /**
    Filtering is monotonic: tighter criteria show a subsequence of what
    looser criteria show, and never more leads.
   */
  lemma FilterMonotonic(cs: seq<CustomerRequirement>, strict: FilterState, loose: FilterState)
    requires Tighter(strict, loose)
    ensures IsSubsequence(FilterCustomers(cs, strict), FilterCustomers(cs, loose))
    ensures |FilterCustomers(cs, strict)| <= |FilterCustomers(cs, loose)|
  {
    forall i | 0 <= i < |cs| && Matches(cs[i], strict)
      ensures Matches(cs[i], loose)
    {
      TighterMatches(cs[i], strict, loose);
    }
    FilterMonotone(cs, (c: CustomerRequirement) => Matches(c, strict), (c: CustomerRequirement) => Matches(c, loose));
  }

  /** The export's column titles. */
  const HeaderFields := ["Name", "Mobile", "Email", "Budget", "Location", "Preferred", "Status", "Date"]

  /** A template literal `"${s}"`: the text between double quotes, nothing escaped. */
  function Quote(s: string): string {
    "\"" + s + "\""
  }

  /**
    The eight columns of a lead's line. How the budget number is printed and
    how the creation time is shown as a local date are parameters.
   */
  function RowFields(c: CustomerRequirement, number: real -> string, date: string -> string): seq<string> {
    [ Quote(c.details.name), c.details.mobile, c.details.email, number(c.details.budget),
      Quote(c.details.currentLocation), Quote(c.details.preferredLocation),
      StatusName(c.status), date(c.createdAt) ]
  }

  /** The lines of the export: the header, then one comma-joined line per lead in list order. */
  function CsvLines(cs: seq<CustomerRequirement>, number: real -> string, date: string -> string): (lines: seq<string>)
    ensures |lines| == |cs| + 1
    ensures lines[0] == Join(HeaderFields, ',')
    ensures forall i :: 0 <= i < |cs| ==> lines[i + 1] == Join(RowFields(cs[i], number, date), ',')
  {
    var rows := seq(|cs|, i requires 0 <= i < |cs| => Join(RowFields(cs[i], number, date), ','));
    assert forall i :: 0 <= i < |cs| ==> ([Join(HeaderFields, ',')] + rows)[i + 1] == rows[i];
    [Join(HeaderFields, ',')] + rows
  }

  /**
    `exportToCSV`: nothing (the "No data to export" alert) for an empty list;
    otherwise the lines joined with newlines.
   */
  function ExportCsv(cs: seq<CustomerRequirement>, number: real -> string, date: string -> string): (r: Option<string>)
    ensures r.None? <==> cs == []
    ensures r.Some? ==> r.value == Join(CsvLines(cs, number, date), '\n')
  {
    if cs == [] then None else Some(Join(CsvLines(cs, number, date), '\n'))
  }

  /** No column of the lead's line holds a newline. */
  predicate SingleLine(c: CustomerRequirement, number: real -> string, date: string -> string) {
    forall k :: 0 <= k < 8 ==> '\n' !in RowFields(c, number, date)[k]
  }

  /**
    When no column holds a newline, the export splits back into exactly one
    header line and one line per lead, in order.
   */
  lemma ExportLines(cs: seq<CustomerRequirement>, number: real -> string, date: string -> string)
    requires cs != []
    requires forall i :: 0 <= i < |cs| ==> SingleLine(cs[i], number, date)
    ensures Split(ExportCsv(cs, number, date).value, '\n') == CsvLines(cs, number, date)
    ensures |Split(ExportCsv(cs, number, date).value, '\n')| == |cs| + 1
  {
    var lines := CsvLines(cs, number, date);
    forall i | 0 <= i < |lines|
      ensures '\n' !in lines[i]
    {
      if i == 0 {
        HeaderAvoidsNewline();
      } else {
        RowLineAvoidsNewline(cs[i - 1], number, date);
      }
    }
    SplitJoin(lines, '\n');
  }

  /** The header line holds no newline. */
  lemma HeaderAvoidsNewline()
    ensures '\n' !in Join(HeaderFields, ',')
  {
    forall k | 0 <= k < |HeaderFields|
      ensures '\n' !in HeaderFields[k]
    {
    }
    JoinAvoids(HeaderFields, ',', '\n');
  }

  /** A lead whose columns hold no newline gets a line without one. */
  lemma RowLineAvoidsNewline(c: CustomerRequirement, number: real -> string, date: string -> string)
    requires SingleLine(c, number, date)
    ensures '\n' !in Join(RowFields(c, number, date), ',')
  {
    JoinAvoids(RowFields(c, number, date), ',', '\n');
  }

  /** Joining with a separator other than `x` introduces no `x`. */
  lemma {:induction false} JoinAvoids(parts: seq<string>, sep: char, x: char)
    requires sep != x
    requires forall k :: 0 <= k < |parts| ==> x !in parts[k]
    ensures x !in Join(parts, sep)
    decreases |parts|
  {
    if |parts| > 1 {
      JoinAvoids(parts[1..], sep, x);
    }
  }

  /**
    When no column holds a comma, a lead's line splits back into its eight
    columns; the three free-text columns come back with their quotes, since
    quotes inside the text are not escaped.
   */
  lemma RowColumns(c: CustomerRequirement, number: real -> string, date: string -> string)
    requires forall k :: 0 <= k < 8 ==> ',' !in RowFields(c, number, date)[k]
    ensures Split(Join(RowFields(c, number, date), ','), ',') == RowFields(c, number, date)
    ensures |Split(Join(RowFields(c, number, date), ','), ',')| == |HeaderFields|
    ensures var cols := Split(Join(RowFields(c, number, date), ','), ',');
      && cols[0] == "\"" + c.details.name + "\""
      && cols[4] == "\"" + c.details.currentLocation + "\""
      && cols[5] == "\"" + c.details.preferredLocation + "\""
      && cols[1] == c.details.mobile && cols[2] == c.details.email
      && cols[6] == StatusName(c.status)
  {
    SplitJoin(RowFields(c, number, date), ',');
  }

  /**
    The status actions a row offers: "Contacted" only for a new lead, "Closed"
    for every lead not yet closed.
   */
  function Actions(s: Status): (r: set<Status>)
    ensures Contacted in r <==> s == New
    ensures Closed in r <==> s != Closed
    ensures r <= {Contacted, Closed}
  {
    (if s == New then {Contacted} else {}) + (if s != Closed then {Closed} else {})
  }

  /** How far a lead has progressed; every offered action moves it forward. */
  function Progress(s: Status): nat {
    match s
    case New => 0
    case Contacted => 1
    case Spam => 1
    case Closed => 2
  }

  /** Each offered action strictly advances a lead: nothing leads back, and nothing leaves `Closed`. */
  lemma ActionsAdvance(s: Status, t: Status)
    requires t in Actions(s)
    ensures Progress(s) < Progress(t)
    ensures s != Closed && t != New && t != Spam
  {
  }

  /** A sequence of statuses that the row actions can produce one after another. */
  ghost predicate ActionPath(p: seq<Status>) {
    forall i :: 0 <= i < |p| - 1 ==> p[i + 1] in Actions(p[i])
  }

  /**
    Starting from `New`, the row actions give at most two changes of status,
    never reach `Spam` and never return to `New`.
   */
  lemma PathsFromNew(p: seq<Status>)
    requires |p| > 0 && p[0] == New && ActionPath(p)
    ensures |p| <= 3
    ensures forall i :: 0 <= i < |p| ==> p[i] != Spam
    ensures forall i :: 0 < i < |p| ==> p[i] != New
  {
    ProgressAlongPath(p, |p| - 1);
    forall i | 0 < i < |p|
      ensures p[i] != Spam && p[i] != New
    {
      ActionsAdvance(p[i - 1], p[i]);
    }
  }

  lemma {:induction false} ProgressAlongPath(p: seq<Status>, i: nat)
    requires i < |p| && ActionPath(p)
    ensures Progress(p[i]) >= Progress(p[0]) + i
  {
    if i > 0 {
      ProgressAlongPath(p, i - 1);
      ActionsAdvance(p[i - 1], p[i]);
    }
  }

  /** `handleStatusChange`: the store changes only when the confirmation returns true. */
  function HandleStatusChange(st: Backend.Store, id: string, s: Status, confirmed: bool): (r: Backend.Store)
    ensures !confirmed ==> r == st
    ensures confirmed ==> Backend.Stored(r) == Backend.SetStatus(Backend.Stored(st), id, s) && r.session == st.session
  {
    if confirmed then Backend.UpdateCustomerStatus(st, id, s).0 else st
  }

  /** `handleDelete`: the store changes only when the confirmation returns true. */
  function HandleDelete(st: Backend.Store, id: string, confirmed: bool): (r: Backend.Store)
    ensures !confirmed ==> r == st
    ensures confirmed ==> Backend.Stored(r) == Backend.RemoveId(Backend.Stored(st), id) && r.session == st.session
  {
    if confirmed then Backend.DeleteCustomer(st, id).0 else st
  }
}
