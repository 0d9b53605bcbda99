/**
  The mock backend: a key-value store holding the list of leads and at most
  one admin session. The store is an immutable value; every operation
  returns the store it leaves behind. A missing list (`None`) is the state
  before the list key was ever written.
 */
module Backend {
  import opened Common
  import opened Text
  import opened Types

  datatype Store = Store(customers: Option<seq<CustomerRequirement>>, session: Option<AdminUser>)

  /** The only credentials `loginAdmin` accepts. */
  const AdminEmail := "admin@company.com"
  const AdminPassword := "12345"

  /** The fixed text every session token starts with. */
  const TokenPrefix := "mock-jwt-token-"

  /** The list the store holds, reading a missing list as empty. */
  function Stored(st: Store): seq<CustomerRequirement> {
    if st.customers.Some? then st.customers.value else []
  }

  /**
    `getCustomers`: the stored list; on first access an empty list is written
    and returned. What is returned is always what the resulting store holds.
   */
  function GetCustomers(st: Store): (r: (Store, seq<CustomerRequirement>))
    ensures r.0.customers == Some(r.1)
    ensures r.1 == Stored(st)
    ensures r.0.session == st.session
    ensures st.customers.Some? ==> r.0 == st
  {
    match st.customers
    case None => (st.(customers := Some([])), [])
    case Some(cs) => (st, cs)
  }

  /** A second `getCustomers` sees exactly what the first one left. */
  lemma GetCustomersStable(st: Store)
    ensures GetCustomers(GetCustomers(st).0) == GetCustomers(st)
  {
  }

  /** The record `saveCustomer` creates from submitted details. */
  function NewRecord(d: Details, id: string, createdAt: string): CustomerRequirement {
    CustomerRequirement(id, d, createdAt, New)
  }

  /**
    `saveCustomer`: the new record, with status `New`, is put in front of the
    current list. The id and timestamp are given, not generated here.
   */
  function SaveCustomer(st: Store, d: Details, id: string, createdAt: string): (r: Store)
    ensures r.customers.Some?
    ensures |Stored(r)| == |Stored(st)| + 1
    ensures Stored(r)[0].details == d && Stored(r)[0].status == New
    ensures Stored(r)[0].id == id && Stored(r)[0].createdAt == createdAt
    ensures Stored(r)[1..] == Stored(st)
    ensures r.session == st.session
  {
    var (st1, cs) := GetCustomers(st);
    st1.(customers := Some([NewRecord(d, id, createdAt)] + cs))
  }

  /** The list with every record whose id is `id` given status `s`. */
  function SetStatus(cs: seq<CustomerRequirement>, id: string, s: Status): (r: seq<CustomerRequirement>)
    ensures |r| == |cs|
    ensures forall i :: 0 <= i < |cs| ==>
      && r[i].id == cs[i].id
      && r[i].details == cs[i].details
      && r[i].createdAt == cs[i].createdAt
    ensures forall i :: 0 <= i < |cs| && cs[i].id == id ==> r[i].status == s
    ensures forall i :: 0 <= i < |cs| && cs[i].id != id ==> r[i] == cs[i]
  {
    seq(|cs|, i requires 0 <= i < |cs| => if cs[i].id == id then cs[i].(status := s) else cs[i])
  }

  /** The list without the records whose id is `id`, in the original order. */
  function RemoveId(cs: seq<CustomerRequirement>, id: string): (r: seq<CustomerRequirement>)
    ensures IsSubsequence(r, cs)
    ensures forall c :: c in r <==> c in cs && c.id != id
    ensures forall c :: multiset(r)[c] == if c.id != id then multiset(cs)[c] else 0
  {
    Filter(cs, (c: CustomerRequirement) => c.id != id)
  }

  /** `id` is the id of some record of `cs`. */
  predicate HasId(cs: seq<CustomerRequirement>, id: string) {
    exists i :: 0 <= i < |cs| && cs[i].id == id
  }

  /** `updateCustomerStatus`: rewrite the matching records' status and store the result. */
  function UpdateCustomerStatus(st: Store, id: string, s: Status): (r: (Store, seq<CustomerRequirement>))
    ensures r.0.customers == Some(r.1)
    ensures r.1 == SetStatus(Stored(st), id, s)
    ensures r.0.session == st.session
  {
    var (st1, cs) := GetCustomers(st);
    var updated := SetStatus(cs, id, s);
    (st1.(customers := Some(updated)), updated)
  }

  /** `deleteCustomer`: drop the matching records and store the result. */
  function DeleteCustomer(st: Store, id: string): (r: (Store, seq<CustomerRequirement>))
    ensures r.0.customers == Some(r.1)
    ensures r.1 == RemoveId(Stored(st), id)
    ensures r.0.session == st.session
  {
    var (st1, cs) := GetCustomers(st);
    var updated := RemoveId(cs, id);
    (st1.(customers := Some(updated)), updated)
  }

  /** Updating the status of an id no record carries changes nothing. */
  lemma SetStatusAbsent(cs: seq<CustomerRequirement>, id: string, s: Status)
    requires !HasId(cs, id)
    ensures SetStatus(cs, id, s) == cs
  {
  }

  /** Removing an id no record carries changes nothing. */
  lemma RemoveAbsent(cs: seq<CustomerRequirement>, id: string)
    requires !HasId(cs, id)
    ensures RemoveId(cs, id) == cs
  {
    FilterKeepsAll(cs, (c: CustomerRequirement) => c.id != id);
  }

  /** After a removal no record carries the removed id. */
  lemma RemovedIdGone(cs: seq<CustomerRequirement>, id: string)
    ensures !HasId(RemoveId(cs, id), id)
  {
    var r := RemoveId(cs, id);
    forall i | 0 <= i < |r|
      ensures r[i].id != id
    {
      assert r[i] in r;
    }
  }

  /** A second status update of the same id overrides the first. */
  lemma SetStatusOverrides(cs: seq<CustomerRequirement>, id: string, a: Status, b: Status)
    ensures SetStatus(SetStatus(cs, id, a), id, b) == SetStatus(cs, id, b)
  {
  }

  /** Deleting a record twice is deleting it once, and so is deleting one that is absent. */
  lemma DeleteIdempotent(st: Store, id: string)
    ensures DeleteCustomer(DeleteCustomer(st, id).0, id) == DeleteCustomer(st, id)
  {
    var once := DeleteCustomer(st, id);
    RemovedIdGone(Stored(st), id);
    RemoveAbsent(once.1, id);
  }

  /** A status update on an id that is not stored leaves the list unchanged. */
  lemma UpdateAbsentIsNoop(st: Store, id: string, s: Status)
    requires !HasId(Stored(st), id)
    ensures UpdateCustomerStatus(st, id, s).1 == Stored(st)
  {
    SetStatusAbsent(Stored(st), id, s);
  }

  /** A status update after the record was deleted changes nothing further. */
  lemma UpdateAfterDelete(st: Store, id: string, s: Status)
    ensures UpdateCustomerStatus(DeleteCustomer(st, id).0, id, s) == DeleteCustomer(st, id)
  {
    var del := DeleteCustomer(st, id);
    RemovedIdGone(Stored(st), id);
    SetStatusAbsent(del.1, id, s);
  }

  /**
    `loginAdmin`: only the fixed credentials succeed; a success stores and
    returns a session for the given email whose token is the fixed prefix
    followed by the clock reading `now` (`Date.now()`); a failure touches
    nothing.
   */
  function LoginAdmin(st: Store, email: string, password: string, now: nat): (r: (Store, Option<AdminUser>))
    ensures r.1.Some? <==> email == AdminEmail && password == AdminPassword
    ensures r.1.Some? ==> r.1.value.email == email && r.1.value.token == TokenPrefix + NatToDecimal(now)
    ensures r.1.Some? ==> GetSession(r.0) == r.1 && r.0.customers == st.customers
    ensures r.1.None? ==> r.0 == st
  {
    if email == AdminEmail && password == AdminPassword then
      var user := AdminUser(email, TokenPrefix + NatToDecimal(now));
      (st.(session := Some(user)), Some(user))
    else
      (st, None)
  }

  /**
    A session exists after a successful login and is gone after the
    following logout; the leads are the same throughout.
   */
  lemma LoginThenLogout(st: Store, now: nat)
    ensures var (st1, user) := LoginAdmin(st, AdminEmail, AdminPassword, now);
      && user.Some? && GetSession(st1) == user
      && GetSession(LogoutAdmin(st1)).None?
      && LogoutAdmin(st1).customers == st.customers
  {
  }

  /**
    A session `loginAdmin` could have issued: the admin's email and a token
    made of the fixed prefix followed by the decimal clock reading.
   */
  predicate Issued(u: AdminUser) {
    && u.email == AdminEmail
    && |u.token| > |TokenPrefix|
    && u.token[..|TokenPrefix|] == TokenPrefix
    && AllDigits(u.token[|TokenPrefix|..])
  }

  /** The store holds no session, or one that `loginAdmin` could have issued. */
  predicate SessionIssued(st: Store) {
    st.session.Some? ==> Issued(st.session.value)
  }

  /**
    `getSession`: the stored session, if any. In a store whose session came
    from a login, what it returns is a session that login could have issued.
   */
  function GetSession(st: Store): (r: Option<AdminUser>)
    ensures r.Some? <==> st.session.Some?
    ensures SessionIssued(st) && r.Some? ==> Issued(r.value)
  {
    st.session
  }

  /** The empty store, before anything was written. */
  const Empty := Store(None, None)

  /**
    Starting from the empty store, every operation leaves a store whose
    session, if any, `loginAdmin` could have issued: `getSession` never
    returns a session that no login created.
   */
  lemma OperationsKeepSessionIssued(st: Store, d: Details, id: string, createdAt: string, s: Status,
                                    email: string, password: string, now: nat)
    requires SessionIssued(st)
    ensures SessionIssued(Empty)
    ensures SessionIssued(GetCustomers(st).0)
    ensures SessionIssued(SaveCustomer(st, d, id, createdAt))
    ensures SessionIssued(UpdateCustomerStatus(st, id, s).0)
    ensures SessionIssued(DeleteCustomer(st, id).0)
    ensures SessionIssued(LoginAdmin(st, email, password, now).0)
    ensures SessionIssued(LogoutAdmin(st))
  {
    var (st1, user) := LoginAdmin(st, email, password, now);
    if user.Some? {
      var digits := NatToDecimal(now);
      assert (TokenPrefix + digits)[..|TokenPrefix|] == TokenPrefix;
      assert (TokenPrefix + digits)[|TokenPrefix|..] == digits;
    }
  }

  /** `logoutAdmin`: forget the session; the leads stay. */
  function LogoutAdmin(st: Store): (r: Store)
    ensures GetSession(r).None?
    ensures r.customers == st.customers
  {
    st.(session := None)
  }
}
