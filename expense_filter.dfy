/**
 * The filtered listing of the "All Expenses" page (`/allexpense`): up to six
 * optional criteria combined with AND, then the matches newest first with
 * the sum of their amounts.
 */
module ExpenseFilter {
  import opened Options
  import opened Dates
  import opened Sorting
  import opened Records

  /** A numeric form field after `float(...)`: left empty, a number (in cents), or text that does not parse. */
  datatype AmountInput = Blank | Number(cents: int) | NotANumber

  /** The submitted form fields `search`, `category`, `min-amount`, `max-amount`, `start-date`, `end-date`. */
  datatype Criteria = Criteria(
    search: string,
    category: string,
    minAmount: AmountInput,
    maxAmount: AmountInput,
    startDate: string,
    endDate: string)

  /** The values a GET request starts from: no criterion applies. */
  const NoCriteria := Criteria("", "all", Blank, Blank, "", "")

  /** `needle` occurs as a contiguous part of `hay`. */
  predicate Contains(hay: string, needle: string) {
    needle <= hay || (hay != [] && Contains(hay[1..], needle))
  }

  /** A copy of `needle` starts at position `i` of `hay`. */
  predicate OccursAt(hay: string, needle: string, i: int) {
    0 <= i && i + |needle| <= |hay| && hay[i..i + |needle|] == needle
  }

  /** Reference definition of containment: some position of `hay` starts a copy of `needle`. */
  lemma {:induction false} ContainsAt(hay: string, needle: string)
    ensures Contains(hay, needle) <==> exists i :: OccursAt(hay, needle, i)
  {
    var n := |needle|;
    if exists i :: OccursAt(hay, needle, i) {
      var i :| OccursAt(hay, needle, i);
      if i > 0 {
        ContainsAt(hay[1..], needle);
        assert hay[1..][i - 1..i - 1 + n] == needle;
        assert OccursAt(hay[1..], needle, i - 1);
      }
    }
    if Contains(hay, needle) {
      if needle <= hay {
        assert hay[0..n] == needle;
        assert OccursAt(hay, needle, 0);
      } else {
        ContainsAt(hay[1..], needle);
        var i :| OccursAt(hay[1..], needle, i);
        assert hay[i + 1..i + 1 + n] == needle;
        assert OccursAt(hay, needle, i + 1);
      }
    }
  }

  /** `category` applies unless it is empty or the sentinel "all"; then it is an exact match. */
  predicate CategoryCriterion(c: Criteria, e: Expense) {
    c.category == "" || c.category == "all" || e.category == c.category
  }

  /** `search` applies unless empty; it must occur in the description or in the category. */
  predicate SearchCriterion(c: Criteria, e: Expense) {
    c.search == "" || Contains(e.description, c.search) || Contains(e.category, c.search)
  }

  /** `min-amount` applies only when it parses as a number. */
  predicate MinCriterion(c: Criteria, e: Expense) {
    c.minAmount.Number? ==> e.amount >= c.minAmount.cents
  }

  /** `max-amount` applies only when it parses as a number. */
  predicate MaxCriterion(c: Criteria, e: Expense) {
    c.maxAmount.Number? ==> e.amount <= c.maxAmount.cents
  }

  /** `start-date` applies only when it parses as `%Y-%m-%d`: no expense before that day. */
  predicate StartCriterion(c: Criteria, e: Expense) {
    ParseDate(c.startDate).Some? ==> !Before(e.date, ParseDate(c.startDate).value)
  }

  /** `end-date` applies only when it parses as `%Y-%m-%d`: no expense after that day. */
  predicate EndCriterion(c: Criteria, e: Expense) {
    ParseDate(c.endDate).Some? ==> !Before(ParseDate(c.endDate).value, e.date)
  }

  predicate Matches(c: Criteria, e: Expense) {
    && CategoryCriterion(c, e)
    && SearchCriterion(c, e)
    && MinCriterion(c, e)
    && MaxCriterion(c, e)
    && StartCriterion(c, e)
    && EndCriterion(c, e)
  }

  /** The query before ordering: the user's rows meeting every criterion, in table order. */
  function Select(s: seq<Expense>, email: string, c: Criteria): (r: seq<Expense>)
    ensures forall e :: e in r <==> e in s && e.owner == email && Matches(c, e)
    ensures forall e :: multiset(r)[e] == if e.owner == email && Matches(c, e) then multiset(s)[e] else 0
  {
    if s == [] then []
    else
      assert forall e :: e in s <==> e == s[0] || e in s[1..];
      assert s == [s[0]] + s[1..];
      (if s[0].owner == email && Matches(c, s[0]) then [s[0]] else []) + Select(s[1..], email, c)
  }

  /** What the page lists: the expenses and `total`. */
  datatype Listing = Listing(expenses: seq<Expense>, total: int)

  /**
   * The page's result: exactly the user's expenses meeting every applicable
   * criterion, each as often as it is stored, newest first, with the sum of
   * their amounts.
   */
  function FilterExpenses(s: seq<Expense>, email: string, c: Criteria): (r: Listing)
    ensures forall e :: e in r.expenses <==> e in s && e.owner == email && Matches(c, e)
    ensures |r.expenses| <= |OwnedBy(s, email)|
    ensures multiset(r.expenses) == multiset(Select(s, email, c))
    ensures forall e :: multiset(r.expenses)[e] == if e.owner == email && Matches(c, e) then multiset(s)[e] else 0
    ensures SortedDesc(r.expenses, DateKey)
    ensures r.total == SumOf(r.expenses, AmountOf)
    ensures r.total == SumOf(Select(s, email, c), AmountOf)
  {
    var found := Select(s, email, c);
    var listed := NewestFirst(found);
    assert forall e :: e in listed <==> e in multiset(listed);
    assert forall e :: e in found <==> e in multiset(found);
    SelectWithin(s, email, c);
    SortSum(found, DateKey, AmountOf);
    Listing(listed, SumOf(listed, AmountOf))
  }

  /** The query never yields more rows than the user owns. */
  lemma {:induction false} SelectWithin(s: seq<Expense>, email: string, c: Criteria)
    ensures |Select(s, email, c)| <= |OwnedBy(s, email)|
  {
    if s != [] {
      SelectWithin(s[1..], email, c);
    }
  }

  /** Two criteria that accept the same expenses select the same rows. */
  lemma {:induction false} SelectSame(s: seq<Expense>, email: string, c: Criteria, d: Criteria)
    requires forall e | e in s :: Matches(c, e) == Matches(d, e)
    ensures Select(s, email, c) == Select(s, email, d)
  {
    if s != [] {
      assert s[0] in s;
      SelectSame(s[1..], email, c, d);
    }
  }

  /** The category "all" filters exactly as an empty category does. */
  lemma AllCategoryIsNoFilter(s: seq<Expense>, email: string, c: Criteria)
    ensures FilterExpenses(s, email, c.(category := "all")) == FilterExpenses(s, email, c.(category := ""))
  {
    SelectSame(s, email, c.(category := "all"), c.(category := ""));
  }

  /** A min or max amount that does not parse filters exactly as an empty one does. */
  lemma UnparseableAmountIgnored(s: seq<Expense>, email: string, c: Criteria)
    ensures FilterExpenses(s, email, c.(minAmount := NotANumber)) == FilterExpenses(s, email, c.(minAmount := Blank))
    ensures FilterExpenses(s, email, c.(maxAmount := NotANumber)) == FilterExpenses(s, email, c.(maxAmount := Blank))
  {
    SelectSame(s, email, c.(minAmount := NotANumber), c.(minAmount := Blank));
    SelectSame(s, email, c.(maxAmount := NotANumber), c.(maxAmount := Blank));
  }

  /** A start or end date that does not parse filters exactly as an empty one does. */
  lemma UnparseableDateIgnored(s: seq<Expense>, email: string, c: Criteria, text: string)
    requires ParseDate(text).None?
    ensures FilterExpenses(s, email, c.(startDate := text)) == FilterExpenses(s, email, c.(startDate := ""))
    ensures FilterExpenses(s, email, c.(endDate := text)) == FilterExpenses(s, email, c.(endDate := ""))
  {
    assert ParseDate("").None?;
    SelectSame(s, email, c.(startDate := text), c.(startDate := ""));
    SelectSame(s, email, c.(endDate := text), c.(endDate := ""));
  }

  /** With no criteria every one of the user's expenses is listed, newest first. */
  lemma {:induction false} NoCriteriaListsAll(s: seq<Expense>, email: string)
    ensures FilterExpenses(s, email, NoCriteria).expenses == NewestFirst(OwnedBy(s, email))
  {
    NoCriteriaSelectsOwned(s, email);
  }

  lemma {:induction false} NoCriteriaSelectsOwned(s: seq<Expense>, email: string)
    ensures Select(s, email, NoCriteria) == OwnedBy(s, email)
  {
    if s != [] {
      assert ParseDate("").None?;
      assert Matches(NoCriteria, s[0]);
      NoCriteriaSelectsOwned(s[1..], email);
    }
  }

  /** A minimum above every stored amount lists nothing and totals 0. */
  lemma MinAboveEveryAmount(s: seq<Expense>, email: string, c: Criteria, m: int)
    requires forall e | e in s :: e.amount < m
    ensures FilterExpenses(s, email, c.(minAmount := Number(m))) == Listing([], 0)
  {
  }
}
