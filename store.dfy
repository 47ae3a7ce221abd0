/**
 * The route handlers of the application over an in-memory copy of its two
 * tables. The session is passed in as the logged-in email (`None` when no one
 * is logged in, which sends every protected page to the login page), and
 * "today" is passed to the dashboard.
 */
module Store {
  import opened Options
  import opened Dates
  import opened Records
  import opened Aggregator
  import opened ExpenseFilter

  /** What a successful login stores in the session. */
  datatype Session = Session(email: string, username: string)

  datatype LoginResult = AlreadyLoggedIn | LoggedIn(session: Session) | InvalidCredentials

  /** How a state-changing request ended. */
  datatype Status = Ok | LoginRequired | Conflict | NotFound | Unauthorized | ValidationError

  /** A protected page: either the redirect to the login page or the page's data. */
  datatype Page<T> = RedirectToLogin | Shown(view: T)

  /** The fields of the edit popup; empty text stands for a field left empty or not sent. */
  datatype UpdateForm = UpdateForm(amount: AmountInput, category: string, description: string, date: string)

  function Emails(users: seq<User>): (es: seq<string>)
    ensures |es| == |users|
    ensures forall i :: 0 <= i < |users| ==> es[i] == users[i].email
  {
    seq(|users|, i requires 0 <= i < |users| => users[i].email)
  }

  /** `expensestb.query.get(id)`: the position of the row with that id, if any. */
  function FindExpense(s: seq<Expense>, id: int): (r: Option<nat>)
    ensures r.Some? ==> r.value < |s| && s[r.value].id == id
    ensures r.None? ==> forall e | e in s :: e.id != id
  {
    if s == [] then None
    else if s[0].id == id then Some(0)
    else match FindExpense(s[1..], id)
      case None => None
      case Some(i) => Some(i + 1)
  }

  /** `User.query.filter_by(email=email, password=password).first()`. */
  function FindCredentials(users: seq<User>, email: string, password: string): (r: Option<nat>)
    ensures r.Some? ==> r.value < |users| && users[r.value].email == email && users[r.value].password == password
    ensures r.None? ==> forall u | u in users :: !(u.email == email && u.password == password)
  {
    if users == [] then None
    else if users[0].email == email && users[0].password == password then Some(0)
    else match FindCredentials(users[1..], email, password)
      case None => None
      case Some(i) => Some(i + 1)
  }

  /**
   * The login handler: an existing session goes straight to the dashboard;
   * otherwise the login succeeds exactly when a user has both that email and
   * that password, and the session then carries that user's name. A wrong
   * password and an unknown email give the same answer.
   */
  function Login(users: seq<User>, session: Option<string>, email: string, password: string): (r: LoginResult)
    ensures r.AlreadyLoggedIn? <==> session.Some?
    ensures session.None? ==>
              (r.LoggedIn? <==> exists u | u in users :: u.email == email && u.password == password)
    ensures r.LoggedIn? ==>
              r.session.email == email
              && exists u | u in users :: u.email == email && u.password == password && u.username == r.session.username
  {
    if session.Some? then AlreadyLoggedIn
    else match FindCredentials(users, email, password)
      case None => InvalidCredentials
      case Some(i) => LoggedIn(Session(email, users[i].username))
  }

  /**
   * The edited record: the id and owner stay; an empty amount becomes 0, one
   * that does not parse keeps the old amount; an empty category or description
   * keeps the old one; a date that is empty or does not parse keeps the old date.
   */
  function ApplyUpdate(e: Expense, f: UpdateForm): (r: Expense)
    ensures r.id == e.id && r.owner == e.owner
    ensures f.amount.Blank? ==> r.amount == 0
    ensures f.amount.Number? ==> r.amount == f.amount.cents
    ensures f.amount.NotANumber? ==> r.amount == e.amount
    ensures f.category != "" ==> r.category == f.category
    ensures f.category == "" ==> r.category == e.category
    ensures f.description != "" ==> r.description == f.description
    ensures f.description == "" ==> r.description == e.description
    ensures ParseDate(f.date).Some? ==> r.date == ParseDate(f.date).value
    ensures ParseDate(f.date).None? ==> r.date == e.date
  {
    var amount := match f.amount
      case Blank => 0
      case Number(c) => c
      case NotANumber => e.amount;
    var date := match ParseDate(f.date)
      case Some(d) => d
      case None => e.date;
    Expense(e.id, e.owner, amount,
            if f.category == "" then e.category else f.category,
            if f.description == "" then e.description else f.description,
            date)
  }

  /** Submitting the same edit twice changes nothing the second time. */
  lemma ApplyUpdateIdempotent(e: Expense, f: UpdateForm)
    ensures ApplyUpdate(ApplyUpdate(e, f), f) == ApplyUpdate(e, f)
  {
  }

  /** No two rows share an id (the primary key). */
  ghost predicate DistinctIds(s: seq<Expense>) {
    forall i, j :: 0 <= i < j < |s| ==> s[i].id != s[j].id
  }

  class ExpenseStore {
    var users: seq<User>
    var expenses: seq<Expense>
    var nextUserId: int
    var nextExpenseId: int

    /**
     * Emails are unique; ids are unique and below the next id to assign;
     * stored dates are calendar dates; every expense belongs to a registered user.
     */
    ghost predicate Valid()
      reads this
    {
      && 1 <= nextUserId && 1 <= nextExpenseId
      && (forall i, j :: 0 <= i < j < |users| ==> users[i].email != users[j].email)
      && (forall i, j :: 0 <= i < j < |users| ==> users[i].id != users[j].id)
      && (forall u | u in users :: 0 < u.id < nextUserId)
      && DistinctIds(expenses)
      && (forall e | e in expenses :: 0 < e.id < nextExpenseId)
      && (forall e | e in expenses :: ValidDate(e.date))
      && (forall e | e in expenses :: e.owner in Emails(users))
    }

    constructor ()
      ensures Valid()
      ensures users == [] && expenses == []
    {
      users, expenses := [], [];
      nextUserId, nextExpenseId := 1, 1;
    }

    /**
     * The registration handler: refused with `Conflict` when the email is taken,
     * otherwise exactly one user is appended.
     */
    method Register(email: string, username: string, password: string) returns (st: Status)
      requires Valid()
      modifies this
      ensures Valid()
      ensures st == Ok || st == Conflict
      ensures st == Conflict <==> email in Emails(old(users))
      ensures st == Conflict ==> users == old(users) && nextUserId == old(nextUserId)
      ensures st == Ok ==> nextUserId == old(nextUserId) + 1
      ensures st == Ok ==> users == old(users) + [User(old(nextUserId), username, email, password)]
      ensures expenses == old(expenses) && nextExpenseId == old(nextExpenseId)
    {
      if email in Emails(users) {
        return Conflict;
      }
      ghost var before := users;
      users := users + [User(nextUserId, username, email, password)];
      nextUserId := nextUserId + 1;
      assert forall e | e in expenses :: e.owner in Emails(users) by {
        forall e | e in expenses ensures e.owner in Emails(users) {
          var i :| 0 <= i < |before| && Emails(before)[i] == e.owner;
          assert Emails(users)[i] == e.owner;
        }
      }
      st := Ok;
    }

    /**
     * The add-expense handler: the new row gets the next id and the session's
     * email; reading it back by that id gives exactly the submitted values.
     * An amount that is not a number, a date that does not parse, or a session
     * email with no user leaves the store unchanged.
     */
    method AddExpense(session: Option<string>, amount: AmountInput, category: string, description: string, date: string)
      returns (st: Status, id: int)
      requires Valid()
      modifies this
      ensures Valid()
      ensures session.None? ==> st == LoginRequired
      ensures st == Ok <==>
                session.Some? && amount.Number? && ParseDate(date).Some? && session.value in Emails(old(users))
      ensures st != Ok ==> expenses == old(expenses) && nextExpenseId == old(nextExpenseId)
      ensures st == Ok ==> nextExpenseId == old(nextExpenseId) + 1
      ensures st == Ok ==>
                id == old(nextExpenseId)
                && expenses == old(expenses) + [Expense(id, session.value, amount.cents, category, description, ParseDate(date).value)]
      ensures st == Ok ==>
                FindExpense(expenses, id) == Some(|old(expenses)|)
                && expenses[|old(expenses)|] == Expense(id, session.value, amount.cents, category, description, ParseDate(date).value)
      ensures users == old(users) && nextUserId == old(nextUserId)
    {
      id := 0;
      if session.None? {
        return LoginRequired, id;
      }
      if !amount.Number? || ParseDate(date).None? {
        return ValidationError, id;
      }
      if session.value !in Emails(users) {
        return NotFound, id;
      }
      id := nextExpenseId;
      var row := Expense(id, session.value, amount.cents, category, description, ParseDate(date).value);
      ghost var before := expenses;
      expenses := expenses + [row];
      nextExpenseId := nextExpenseId + 1;
      assert expenses[..|before|] == before;
      FindAfter(before, row);
      st := Ok;
    }

    /** A row appended with an id no other row has is found at the end. */
    static lemma FindAfter(s: seq<Expense>, row: Expense)
      requires forall e | e in s :: e.id != row.id
      ensures FindExpense(s + [row], row.id) == Some(|s|)
    {
      if s != [] {
        assert (s + [row])[1..] == s[1..] + [row];
        assert s[0] in s;
        FindAfter(s[1..], row);
      }
    }

    /**
     * The delete handler: an unknown id or another user's expense leaves the
     * store unchanged; otherwise exactly that row is removed and the others
     * stay, in order.
     */
    method DeleteExpense(session: Option<string>, id: int) returns (st: Status)
      requires Valid()
      modifies this
      ensures Valid()
      ensures session.None? ==> st == LoginRequired
      ensures session.Some? && FindExpense(old(expenses), id).None? ==> st == NotFound
      ensures (session.Some? && FindExpense(old(expenses), id).Some?
               && old(expenses)[FindExpense(old(expenses), id).value].owner != session.value) ==> st == Unauthorized
      ensures st == Ok <==>
                session.Some? && FindExpense(old(expenses), id).Some?
                && old(expenses)[FindExpense(old(expenses), id).value].owner == session.value
      ensures st != Ok ==> expenses == old(expenses)
      ensures st == Ok ==>
                var i := FindExpense(old(expenses), id).value;
                session.Some? && old(expenses)[i].owner == session.value
                && expenses == old(expenses)[..i] + old(expenses)[i + 1..]
      ensures st == Ok ==> forall e :: e in expenses <==> e in old(expenses) && e.id != id
      ensures users == old(users) && nextUserId == old(nextUserId) && nextExpenseId == old(nextExpenseId)
    {
      if session.None? {
        return LoginRequired;
      }
      match FindExpense(expenses, id) {
        case None =>
          return NotFound;
        case Some(i) =>
          if expenses[i].owner != session.value {
            return Unauthorized;
          }
          RemoveAtMembers(expenses, i);
          expenses := expenses[..i] + expenses[i + 1..];
          st := Ok;
      }
    }

    /** Removing the row at `i` removes exactly the rows with its id, as ids are unique. */
    static lemma RemoveAtMembers(s: seq<Expense>, i: nat)
      requires i < |s|
      requires DistinctIds(s)
      ensures forall e :: e in s[..i] + s[i + 1..] <==> e in s && e.id != s[i].id
      ensures DistinctIds(s[..i] + s[i + 1..])
    {
      var r := s[..i] + s[i + 1..];
      forall e ensures e in r <==> e in s && e.id != s[i].id {
        if e in s && e.id != s[i].id {
          var k :| 0 <= k < |s| && s[k] == e;
          if k < i { assert r[k] == e; } else { assert r[k - 1] == e; }
        }
        if e in r {
          var k :| 0 <= k < |r| && r[k] == e;
          if k < i { assert s[k] == e; } else { assert s[k + 1] == e; }
        }
      }
      forall a, b | 0 <= a < b < |r| ensures r[a].id != r[b].id {
        var a' := if a < i then a else a + 1;
        var b' := if b < i then b else b + 1;
        assert r[a] == s[a'] && r[b] == s[b'];
      }
    }

    /**
     * The update handler: an unknown id or another user's expense leaves the
     * store unchanged; otherwise that one row is replaced by the edited record
     * and no other row changes.
     */
    method UpdateExpense(session: Option<string>, id: int, form: UpdateForm) returns (st: Status)
      requires Valid()
      modifies this
      ensures Valid()
      ensures session.None? ==> st == LoginRequired
      ensures session.Some? && FindExpense(old(expenses), id).None? ==> st == NotFound
      ensures (session.Some? && FindExpense(old(expenses), id).Some?
               && old(expenses)[FindExpense(old(expenses), id).value].owner != session.value) ==> st == Unauthorized
      ensures st == Ok <==>
                session.Some? && FindExpense(old(expenses), id).Some?
                && old(expenses)[FindExpense(old(expenses), id).value].owner == session.value
      ensures st != Ok ==> expenses == old(expenses)
      ensures st == Ok ==>
                var i := FindExpense(old(expenses), id).value;
                session.Some? && old(expenses)[i].owner == session.value
                && expenses == old(expenses)[i := ApplyUpdate(old(expenses)[i], form)]
      ensures users == old(users) && nextUserId == old(nextUserId) && nextExpenseId == old(nextExpenseId)
    {
      if session.None? {
        return LoginRequired;
      }
      match FindExpense(expenses, id) {
        case None =>
          return NotFound;
        case Some(i) =>
          if expenses[i].owner != session.value {
            return Unauthorized;
          }
          ghost var before := expenses;
          expenses := expenses[i := ApplyUpdate(expenses[i], form)];
          assert forall k :: 0 <= k < |expenses| && k != i ==> expenses[k] == before[k];
          assert before[i] in before;
          st := Ok;
      }
    }

    /** The dashboard handler: the aggregation of the user's expenses, newest first. */
    method Dashboard(session: Option<string>, today: Date) returns (p: Page<DashboardView>)
      requires Valid()
      requires ValidDate(today)
      ensures p.RedirectToLogin? <==> session.None?
      ensures p.Shown? ==> IsDashboardOf(p.view, NewestFirst(OwnedBy(expenses, session.value)), today)
    {
      if session.None? {
        return RedirectToLogin;
      }
      var exps := NewestFirst(OwnedBy(expenses, session.value));
      assert AllDatesValid(exps) by {
        forall e | e in exps ensures ValidDate(e.date) {
          assert e in multiset(exps);
        }
      }
      var v := SummarizeDashboard(exps, today);
      p := Shown(v);
    }

    /** The reports handler: the aggregation of the user's expenses in table order. */
    method Reports(session: Option<string>) returns (p: Page<ReportView>)
      requires Valid()
      ensures p.RedirectToLogin? <==> session.None?
      ensures p.Shown? ==>
                AllDatesValid(OwnedBy(expenses, session.value))
                && IsReportOf(p.view, OwnedBy(expenses, session.value))
    {
      if session.None? {
        return RedirectToLogin;
      }
      var exps := OwnedBy(expenses, session.value);
      var v := SummarizeReports(exps);
      p := Shown(v);
    }

    /** The "All Expenses" handler; a GET request passes `NoCriteria`. */
    method AllExpenses(session: Option<string>, criteria: Criteria) returns (p: Page<Listing>)
      ensures p.RedirectToLogin? <==> session.None?
      ensures p.Shown? ==> p.view == FilterExpenses(expenses, session.value, criteria)
    {
      if session.None? {
        return RedirectToLogin;
      }
      p := Shown(FilterExpenses(expenses, session.value, criteria));
    }
  }
}
