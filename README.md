# Personal expense tracker — a Dafny model of its request handlers

The application is a small Flask web app (`main/app.py`). Users register, log
in, record expenses (amount, category, description, date), and view three
pages built from their own expenses:

- the **dashboard**: the grand total, today's total and this month's total; the
  category breakdown ranked by amount; the top three categories; and the five
  newest expenses;
- the **reports** page: per-category totals in first-seen order, the grand
  total, and a timeline of per-day totals labelled `YYYY-MM-DD` in ascending order;
- the **All Expenses** page: the user's expenses filtered by up to six optional
  criteria (text search, category, minimum and maximum amount, start and end
  date), newest first, with their total.

The handlers that change data are register, add, update and delete. Update and
delete check that the expense belongs to the logged-in user.

This project models that logic. It is split into these modules:

- `Dates` (`dates.dfy`): calendar dates as the `DATE` column stores them.
  - `FormatDate` is `strftime('%Y-%m-%d')`.
  - `ParseDate` is `strptime(text, '%Y-%m-%d')`. It keeps that function's
    lenient pattern: one-digit months and days, and a space-padded day.
  - `StrLess` is Python's `<` on strings.
- `Sorting` (`sorting.dfy`): one stable sort, largest key first. It stands for
  `ORDER BY date DESC` and for `sorted(..., reverse=True)`. It also holds
  `sum(...)` and the slice `s[:n]`.
- `Grouping` (`grouping.dfy`): an insertion-ordered Python dict as a sequence of
  key/amount pairs, and the loop `d[k] = d.get(k, 0) + a` over a list.
- `Records` (`records.dfy`): the rows of the `user` and `expensestb` tables, and
  the per-user query.
- `Aggregator` (`aggregator.dfy`): the dashboard and reports computations. Each
  is a method with its loops, proved against a specification predicate.
- `ExpenseFilter` (`expense_filter.dfy`): the All Expenses criteria and listing.
- `Store` (`store.dfy`): the two tables as the class `ExpenseStore`, and the
  handlers over it.
  - The session is a parameter: the logged-in email, or `None`, which
    redirects a protected page to the login page.
  - The current day is also a parameter.

## Model

| member | source | states |
|---|---|---|
| Dates.OrdinalOrder | main/app.py:58 | the integer key used for ordering by the `date` column is faithful: on valid dates, `Before(a, b)` iff key(a) < key(b), and equal keys iff equal dates |
| Dates.FormatDate | main/app.py:199 | `strftime('%Y-%m-%d')` gives ten characters with dashes at positions 4 and 7 |
| Dates.Pad2 | main/app.py:199 | strftime's `%m` and `%d`: two decimal digits whose value is the number (zero-padded) |
| Dates.Pad4 | main/app.py:199 | strftime's `%Y`: four decimal digits whose value is the year (zero-padded) |
| Dates.StrLess | main/app.py:207 | Python's `<` on strings, the order `sorted` uses on the label texts; related to date order by `FormatOrder` |
| Dates.ParseDate | main/app.py:287 | whatever `strptime('%Y-%m-%d')` accepts is a real calendar date (years 1..9999, day within its month, leap years included) |
| Dates.MonthField | main/app.py:287 | strptime's `%m` alternatives `1[0-2]`, `0[1-9]`, `[1-9]` followed by the dash: a month in 1..12 and a shorter rest of the text |
| Dates.DayField | main/app.py:287 | strptime's `%d` alternatives `3[01]`, `[12]\d`, `0[1-9]`, `[1-9]`, ` [1-9]`, the first that matches, which must consume the rest: a day in 1..31 |
| Dates.ParseFormat | main/app.py:287 | parsing the text of any valid date gives back that date (`ParseDate(FormatDate(d)) == Some(d)`) |
| Dates.FormatInjective | main/app.py:77 | two valid dates have the same `strftime` text iff they are the same date, so comparing texts with `today_str` compares dates |
| Dates.StrLessAppend | main/app.py:207 | string order of two texts with equal-length prefixes is decided by the prefixes, or by the rests when the prefixes are equal |
| Dates.Pad2Order | main/app.py:199 | two-digit zero-padded numbers compare as strings as they compare as numbers, and are equal only for equal numbers |
| Dates.Pad4Order | main/app.py:199 | the same for the four-digit year field |
| Dates.FormatOrder | main/app.py:207 | sorting the `YYYY-MM-DD` texts as strings orders the dates chronologically: `StrLess(FormatDate(a), FormatDate(b))` iff `Before(a, b)` (years below 1000: see Left out) |
| Sorting.Insert | main/app.py:89 | inserting into the sorted list adds exactly that one element (multiset) |
| Sorting.SortDesc | main/app.py:89 | the sort yields a permutation of its input (multiset), of the same length, ordered by non-increasing key |
| Sorting.InsertSorted | main/app.py:89 | inserting into a sorted list keeps it sorted |
| Sorting.InsertWithKey | main/app.py:89 | an inserted element precedes the elements that share its key |
| Sorting.SortStable | main/app.py:89 | stability: for every key, the elements with that key keep their input order |
| Sorting.InsertBelow | main/app.py:207 | inserting an element below a bound into a list below it keeps every key below it |
| Sorting.ConsStrict | main/app.py:207 | a head above every key of a strictly ordered tail keeps the order strict |
| Sorting.InsertStrict | main/app.py:207 | inserting an element with a new key into a strictly ordered list keeps it strictly ordered |
| Sorting.SortStrict | main/app.py:207 | when no two elements share a key, the sorted order is strict |
| Sorting.InsertSum | main/app.py:89 | inserting an element adds its quantity to the sum |
| Sorting.SortSum | main/app.py:89-97 | sorting keeps the sum of any per-element quantity |
| Sorting.SumOfSnoc | main/app.py:60 | `sum(...)` over a list grown by one element grows by that element's quantity (the step of an accumulating loop) |
| Sorting.SumOf | main/app.py:60 | `sum(f(x) for x in s)`; its meaning is fixed by `SumOfSnoc` (the loop step), `SortSum` and `AddToSum` |
| Sorting.Take | main/app.py:90 | `s[:n]` is a prefix of `s` with length `min(n, len(s))` |
| Grouping.Keys | main/app.py:204 | `list(d.keys())` has one key per entry, in entry order |
| Grouping.Values | main/app.py:205 | `list(d.values())` has one amount per entry, in entry order |
| Grouping.Get | main/app.py:86 | `d.get(k, 0)`: 0 when `k` is not a key, otherwise the value of an entry with key `k` |
| Grouping.AddTo | main/app.py:86 | `d[k] = d.get(k, 0) + a`; its effect is stated by `AddToKeys`, `AddToSum` and `AddToGet` |
| Grouping.AddToKeys | main/app.py:86 | `d[k] = d.get(k, 0) + a` keeps the keys when `k` is present and appends `k` when it is absent |
| Grouping.AddToSum | main/app.py:86 | the same update adds exactly `a` to the sum of the values |
| Grouping.AddToGet | main/app.py:86 | the same update adds `a` to `d.get(k)` and leaves every other key's value unchanged |
| Grouping.FirstSeen | main/app.py:204 | the category labels, each once, and a label is present iff some expense carries it |
| Grouping.Tally | main/app.py:83-86 | the dict the loop builds has its keys in first-seen order without repeats, `d.get(k, 0)` equals the reference sum `KeyTotal` of the amounts with key `k`, and its values add up to the grand total |
| Grouping.KeyTotal | main/app.py:86 | reference definition: the sum of the amounts of the elements whose key is `k`, against which the tallying loops are proved |
| Grouping.GetAt | main/app.py:86 | in a dict without repeated keys, each entry holds `d.get` of its key |
| Grouping.TallyEntry | main/app.py:204-205 | each entry of the built dict holds the reference total of its key |
| Grouping.TwoPositions | main/app.py:89 | an item found at two positions of a list occurs at least twice in its multiset |
| Grouping.NoDupKeysCount | main/app.py:89 | in a dict without repeated keys every entry occurs exactly once |
| Grouping.PermutationKeepsNoDup | main/app.py:89 | `sorted(d.items())` still has no repeated key |
| Grouping.PermutedEntry | main/app.py:89 | every entry of a permutation of the items is an entry of the dict |
| Grouping.PermutedKeys | main/app.py:89 | a permutation of the items has exactly the dict's keys |
| Grouping.TallyStep | main/app.py:190 | one more iteration of the tallying loop is one `d[k] = d.get(k, 0) + a` update |
| Records.CategoryOf | main/app.py:85 | `e.category or 'Other'`: the label is never empty, is the category when it is non-empty, and is "Other" otherwise |
| Records.DateKey | main/app.py:58 | the order of the `date` column as an integer key; `OrdinalOrder` shows it agrees with chronological order |
| Records.OwnedBy | main/app.py:176 | `filter_by(user_email=email)` keeps exactly the rows whose owner is `email`, each as often as it is stored, and no more rows than the table has |
| Records.NewestFirst | main/app.py:58 | `order_by(date.desc())` is a permutation of the user's rows, ordered from the newest date |
| Aggregator.AmountOn | main/app.py:76-78 | reference definition of `today_total`: the sum of the amounts of the expenses dated that day |
| Aggregator.AmountInMonth | main/app.py:79-80 | reference definition of `month_total`: the sum of the amounts of the expenses dated in that year and month |
| Aggregator.CategoryTotals | main/app.py:83-86 | `category_totals`: the tally by `e.category or 'Other'`, whose properties `Tally` states |
| Aggregator.RankedCategories | main/app.py:89 | `sorted_cats`: the category totals sorted by amount, largest first, stable; see `DashboardCategories` and `TopCategories` |
| Aggregator.Timeline | main/app.py:202-208 | `timeline_totals` with its days in ascending order; see `TimelineAscending`, `TimelineEntry` and `ReportTimeAmounts` |
| Aggregator.IsDashboardOf | main/app.py:99-107 | what the dashboard shows: grand, today's and month totals, the count, the ranked categories, their top three and the first five expenses |
| Aggregator.SummarizeDashboard | main/app.py:60-97 | the handler's loops compute the grand total, today's and this month's totals, the expense count, the ranked category breakdown, its top three and the five newest expenses, as `IsDashboardOf` defines them |
| Aggregator.RankedEntry | main/app.py:89-97 | every ranked entry is a non-empty label holding the total of its category |
| Aggregator.RankedLabels | main/app.py:83-96 | the donut labels have no repeats, and a label is shown iff some expense carries that category |
| Aggregator.RankedSum | main/app.py:83-97 | the donut amounts add up to the grand total |
| Aggregator.DashboardCategories | main/app.py:83-97 | the donut lists each category once; a label is shown iff some expense has it (empty shown as "Other"); each amount is its category's total; the amounts add up to the grand total |
| Aggregator.TopCategories | main/app.py:89-90 | at most three categories, three unless fewer exist, in non-increasing order; none left out has a larger total; equal totals keep first-seen order |
| Aggregator.RecentExpenses | main/app.py:93 | the five newest (all when fewer), a prefix of the newest-first list, and no expense left out is more recent than one shown |
| Aggregator.TodayWithinMonth | main/app.py:76-80 | with non-negative amounts, 0 <= today's total <= this month's total <= grand total |
| Aggregator.Labels | main/app.py:199 | each timeline label is the `strftime` text of its day |
| Aggregator.TimelineDates | main/app.py:194-202 | every day in the timeline is a valid date on which some expense falls |
| Aggregator.SummarizeReports | main/app.py:176-208 | the handler's single loop and final sort compute the category names and totals, the grand total, the count, and the day labels with their totals, as `IsReportOf` defines them |
| Aggregator.IsReportOf | main/app.py:213-223 | what the reports page shows: category names and totals in first-seen order, the grand total, the count, and the day labels with their totals |
| Aggregator.TimelineAscending | main/app.py:207 | the timeline days are strictly increasing, so each day appears once |
| Aggregator.TimelineCovers | main/app.py:202 | every expense's day is in the timeline |
| Aggregator.TimelineEntry | main/app.py:208 | each timeline amount is the total of its day |
| Aggregator.TimeLabels | main/app.py:207 | one label per timeline day |
| Aggregator.LabelsParse | main/app.py:199-207 | each timeline label parses back to its day |
| Aggregator.LabelsAscending | main/app.py:207 | the labels are strictly ascending both as dates and as strings, which is the order `sorted(timeline_totals.keys())` gives, so each day has one label |
| Aggregator.LabelsCover | main/app.py:194-207 | every expense's day has a label, and every label is the text of some expense's day |
| Aggregator.ReportTimeAmounts | main/app.py:202-208 | `time_amounts[i]` is the total of the expenses on the day of `time_labels[i]`, and the amounts add up to the grand total |
| Aggregator.ReportCategories | main/app.py:178-205 | the category names are in first-seen order without repeats, each amount is its category's total, and the amounts add up to `total_amount` |
| ExpenseFilter.ContainsAt | main/app.py:264-265 | `LIKE '%term%'` containment agrees with the reference definition: some position of the text starts a copy of the term |
| ExpenseFilter.Contains | main/app.py:264-265 | `LIKE '%term%'`: the term occurs in the text; `ContainsAt` relates it to the positional definition |
| ExpenseFilter.CategoryCriterion | main/app.py:257-258 | an empty category or "all" applies no filter; otherwise the category must be equal |
| ExpenseFilter.SearchCriterion | main/app.py:261-267 | an empty term applies no filter; otherwise it must occur in the description or in the category |
| ExpenseFilter.MinCriterion | main/app.py:270-275 | only a minimum that parses as a number applies: `amount >= min` |
| ExpenseFilter.MaxCriterion | main/app.py:277-282 | only a maximum that parses as a number applies: `amount <= max` |
| ExpenseFilter.StartCriterion | main/app.py:285-290 | only a start date that strptime accepts applies: no expense before that day |
| ExpenseFilter.EndCriterion | main/app.py:292-297 | only an end date that strptime accepts applies: no expense after that day |
| ExpenseFilter.Matches | main/app.py:255-297 | the criteria combine with AND |
| ExpenseFilter.Select | main/app.py:235-297 | the query keeps exactly the user's rows that meet every applicable criterion, each as often as it is stored |
| ExpenseFilter.FilterExpenses | main/app.py:235-303 | the listing holds exactly the user's expenses that meet every criterion, each as often as it is stored (a permutation of the query's rows), newest first, and `total` is the sum of the amounts of those rows |
| ExpenseFilter.SelectWithin | main/app.py:235-297 | filtering never yields more rows than the user owns |
| ExpenseFilter.SelectSame | main/app.py:255-297 | criteria that accept the same expenses select the same rows |
| ExpenseFilter.AllCategoryIsNoFilter | main/app.py:257-258 | category "all" lists exactly what an empty category lists |
| ExpenseFilter.UnparseableAmountIgnored | main/app.py:270-282 | a min or max amount that `float()` rejects lists exactly what an empty one lists |
| ExpenseFilter.UnparseableDateIgnored | main/app.py:285-297 | a start or end date that `strptime` rejects lists exactly what an empty one lists |
| ExpenseFilter.NoCriteriaListsAll | main/app.py:246-253 | a GET request lists every one of the user's expenses, newest first |
| ExpenseFilter.NoCriteriaSelectsOwned | main/app.py:246-253 | with the GET defaults the query keeps all of the user's rows |
| ExpenseFilter.MinAboveEveryAmount | main/app.py:270-303 | a minimum above every stored amount lists nothing, with total 0 |
| Store.Emails | main/app.py:146 | the email of each user row, in table order |
| Store.FindExpense | main/app.py:323 | `query.get(id)` gives a row with that id, or nothing only when no row has it |
| Store.FindCredentials | main/app.py:123 | the lookup by email and password gives a matching row, or nothing only when no row matches both |
| Store.Login | main/app.py:114-132 | an existing session is sent on; otherwise login succeeds iff some user has both that email and that password, and the session then holds that email and that user's name; every failure is the same `InvalidCredentials` |
| Store.ApplyUpdate | main/app.py:353-368 | the edited record keeps id and owner; an empty amount becomes 0, a non-number amount keeps the old amount; an empty category or description keeps the old one; a date that is empty or does not parse keeps the old date |
| Store.ApplyUpdateIdempotent | main/app.py:353-368 | submitting the same edit twice gives the same record as once |
| Store.ExpenseStore.constructor | main/app.py:43-44 | the tables start empty and consistent |
| Store.ExpenseStore.Valid | main/app.py:24-37 | the table constraints: unique emails, unique primary keys below the next id, calendar dates in the `date` column (as MySQL's strict SQL mode guarantees; see Left out), and every expense's `user_email` a registered email |
| Store.ExpenseStore.Register | main/app.py:146-153 | a taken email is refused with `Conflict` and nothing changes; otherwise exactly one user is appended with the next id; emails stay unique |
| Store.ExpenseStore.AddExpense | main/app.py:377-398 | with a session, a numeric amount, a parseable date and a registered owner, one row with the next id and the session's email is appended, and looking that id up gives back exactly the submitted values; in every other case nothing changes |
| Store.ExpenseStore.FindAfter | main/app.py:397-398 | a row appended with a fresh id is found at the end |
| Store.ExpenseStore.DeleteExpense | main/app.py:319-335 | it succeeds iff there is a session and a row with that id owned by the session's user; then exactly the rows with that id are removed and the others stay in order; without a session, for an unknown id, or for another user's expense nothing changes |
| Store.ExpenseStore.RemoveAtMembers | main/app.py:330-332 | removing one row removes exactly the rows with its id and keeps ids unique |
| Store.ExpenseStore.UpdateExpense | main/app.py:341-371 | it succeeds iff there is a session and a row with that id owned by the session's user; then only that row changes, to `ApplyUpdate` of it; without a session, for an unknown id, or for another user's expense nothing changes |
| Store.ExpenseStore.Dashboard | main/app.py:54-58 | without a session it redirects to the login page; otherwise it shows the dashboard of the user's expenses, newest first |
| Store.ExpenseStore.Reports | main/app.py:172-176 | without a session it redirects to the login page; otherwise it shows the reports of the user's expenses in table order |
| Store.ExpenseStore.AllExpenses | main/app.py:228-235 | without a session it redirects to the login page; otherwise it shows the filtered listing of the user's expenses |

## Left out

- Dates.FormatDate: always writes four year digits. For years below 1000 the C library's `strftime` may write fewer digits. For such dates the model does not capture the label texts, the `today_str` comparison, or the string order of the timeline labels (Dates.FormatOrder). Dates before year 1000 are outside MySQL's documented `DATE` range (1000-01-01 to 9999-12-31), but the model does not refuse them.
- Floating point: amounts are whole cents (`int`), not the `Float` column. Sums are exact, with no rounding, and `float()` parsing of form text is represented by `AmountInput` (blank, a number, or not a number).
- Unreachable fallbacks: the model stores only calendar dates and numeric amounts. This holds under MySQL's strict SQL mode (the default since MySQL 5.7). It also holds because the model's `AddExpense` refuses a date that does not parse, and the model's `UpdateExpense` keeps the old date when the new one does not parse. So these branches are not modelled:
  - the dashboard's branch for a date that does not parse (lines 68-74);
  - the reports' `float()` fallback to 0 (lines 185-187);
  - the reports' fallback to today's text for a date without `strftime` (lines 200-201).
- Non-strict SQL mode: in this mode MySQL stores an unreadable date, such as add_expense's "10/03/2024" (lines 385-398), as '0000-00-00', and the connector reads it back as None. The model does not capture what follows:
  - the dashboard's `if d_obj:` (line 76) leaves that row out of both today's and this month's totals;
  - the reports' except branch (lines 200-201) counts that row under today's label.
- Reports timeline: it groups by the date itself rather than by its text. `FormatInjective` makes the two groupings the same.
- Reports scope: the per-day totals cover only the logged-in user's expenses, because the query filters by owner (line 176).
- Clock: "today" (`datetime.utcnow()`, lines 61 and 64) is a parameter. The two clock readings are assumed to fall on the same day.
- Session storage and logout (lines 163-167): the session is a parameter, the logged-in email or `None`. The username stored at login is returned in `Session` and not kept.
- Page rendering, redirects, HTTP methods and flash messages are left out. A GET of `/allexpense` is `NoCriteria`. A GET of `/addexpense` reaches no `return` (lines 380-401), so Flask answers with a server error; the store is unchanged and the model has no member for it.
- Form text: the filter's form fields are taken after `.strip()` (lines 240-245). Whitespace stripping is not modelled.
- `strptime`: `ParseDate` accepts ASCII digits only, not other Unicode decimal digits.
- String comparison in the database: every SQL comparison is modelled as exact equality of texts, and `LIKE` as a case-sensitive substring test. MySQL's collations are not modelled. The default collations compare case-insensitively, and MySQL 8.0's default `utf8mb4_0900_ai_ci` is also accent-insensitive. Trailing spaces are ignored only by PAD SPACE collations, such as MySQL 5.7's defaults; MySQL 8.0's default is NO PAD, where they count. It affects:
  - the filter's `LIKE` and category `=` (lines 257-267);
  - Store.Login and Store.FindCredentials: the email-and-password match (line 123), so the model refuses "PASSWORD" for a stored "password";
  - Store.ExpenseStore.Register: the duplicate-email check (line 146) and the UNIQUE email (line 26), so the model lets "A@x.com" register beside "a@x.com";
  - Records.OwnedBy: `filter_by(user_email=...)` (lines 58, 176, 235).
- ExpenseFilter.Contains: `%`, `_` and `\` inside the search term are ordinary characters in the model. In MySQL's `LIKE` (lines 264-265) `%` and `_` are wildcards and `\` is the escape character, so a term containing any of them does not match literally.
- Store.ExpenseStore.AddExpense: the handler stores the submitted strings and leaves coercion to the database. The model instead refuses with `ValidationError`, leaving the store unchanged, when the amount is not a number or the date does not parse. It refuses with `NotFound` when the session email has no user row; the foreign key of `user_email` forbids that row.
- Store.ExpenseStore.Register: the handler has no session check, and neither does the model.
- Store.ExpenseStore.AddExpense: column widths are not modelled. `category` is `String(100)` (line 35), and `user_email` is `String(255)` (line 33). MySQL in strict mode refuses a longer value at commit, and without strict mode it truncates. The model stores any length and its read-back promises the full text.
- Store.ExpenseStore.UpdateExpense: the same for a category longer than 100 characters (line 35).
- Store.ExpenseStore.Register: the same for `username`, `email` and `password`, each `String(255)` (lines 25-27).
- Sort ties: rows with equal dates keep table order under `ORDER BY date DESC`. The database does not promise any order for ties.
- Reports row order: the reports query (line 176) has no `ORDER BY`. The model reads the rows in table order, and that order decides the first-seen order of the categories. The database does not promise it.
- Passwords are compared as plain text, as the source does. Hashing is not part of the source.
