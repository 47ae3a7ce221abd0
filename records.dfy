/**
 * The two tables of the application, `user` and `expensestb`, as records, and
 * the two queries every page starts from: the expenses of one user, and the
 * same ordered newest first.
 */
module Records {
  import opened Dates
  import opened Sorting

  /** A row of `user`: the email is the login key and is unique. */
  datatype User = User(id: int, username: string, email: string, password: string)

  /**
   * A row of `expensestb`. The amount is kept in cents (the column is a float);
   * `owner` is `user_email`, the foreign key to `user.email`.
   */
  datatype Expense = Expense(id: int, owner: string, amount: int, category: string, description: string, date: Date)

  function AmountOf(e: Expense): int {
    e.amount
  }

  function DateOf(e: Expense): Date {
    e.date
  }

  /** The database's order on the `date` column, as an integer key. */
  function DateKey(e: Expense): int {
    Ordinal(e.date)
  }

  /** `e.category or 'Other'`: an empty category is reported as "Other". */
  function CategoryOf(e: Expense): (c: string)
    ensures c != ""
    ensures e.category != "" ==> c == e.category
    ensures e.category == "" ==> c == "Other"
  {
    if e.category == "" then "Other" else e.category
  }

  /** `expensestb.query.filter_by(user_email=email)`: the user's rows in table order. */
  function OwnedBy(s: seq<Expense>, email: string): (r: seq<Expense>)
    ensures forall e :: e in r <==> e in s && e.owner == email
    ensures forall e :: multiset(r)[e] == if e.owner == email then multiset(s)[e] else 0
    ensures |r| <= |s|
  {
    if s == [] then []
    else
      assert forall e :: e in s <==> e == s[0] || e in s[1..];
      assert s == [s[0]] + s[1..];
      (if s[0].owner == email then [s[0]] else []) + OwnedBy(s[1..], email)
  }

  /** `... .order_by(expensestb.date.desc())`; rows with the same date stay in table order. */
  function NewestFirst(s: seq<Expense>): (r: seq<Expense>)
    ensures multiset(r) == multiset(s)
    ensures SortedDesc(r, DateKey)
  {
    SortDesc(s, DateKey)
  }
}
