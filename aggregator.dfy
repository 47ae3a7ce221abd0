/**
 * The aggregations behind the dashboard page (`/`) and the reports page
 * (`/reports`): grand total, today's and this month's totals, totals per
 * category, the top three categories, the five most recent expenses, and
 * totals per day for the timeline chart. "Today" is a parameter.
 */
module Aggregator {
  import opened Options
  import opened Dates
  import opened Sorting
  import opened Grouping
  import opened Records

  // ---------------------------------------------------------------------
  // Reference definitions

  /** Sum of the amounts of the expenses dated `day`. */
  function AmountOn(s: seq<Expense>, day: Date): int {
    if s == [] then 0
    else AmountOn(s[..|s| - 1], day) + (if s[|s| - 1].date == day then s[|s| - 1].amount else 0)
  }

  /** Sum of the amounts of the expenses dated in month `month` of year `year`. */
  function AmountInMonth(s: seq<Expense>, year: int, month: int): int {
    if s == [] then 0
    else
      var e := s[|s| - 1];
      AmountInMonth(s[..|s| - 1], year, month) + (if e.date.year == year && e.date.month == month then e.amount else 0)
  }

  /** `category_totals`: one entry per category in first-seen order, empty category as "Other". */
  function CategoryTotals(s: seq<Expense>): seq<(string, int)> {
    Tally(s, CategoryOf, AmountOf)
  }

  /** `sorted(category_totals.items(), key=lambda x: x[1], reverse=True)`. */
  function RankedCategories(s: seq<Expense>): seq<(string, int)> {
    SortDesc(CategoryTotals(s), Total)
  }

  /** Sort key that puts earlier dates first. */
  function EarliestFirst(p: (Date, int)): int {
    -Ordinal(p.0)
  }

  /** `timeline_totals` with its keys in ascending date order. */
  function Timeline(s: seq<Expense>): seq<(Date, int)> {
    SortDesc(Tally(s, DateOf, AmountOf), EarliestFirst)
  }

  predicate AllDatesValid(s: seq<Expense>) {
    forall e | e in s :: ValidDate(e.date)
  }

  // ---------------------------------------------------------------------
  // Dashboard

  datatype DashboardView = DashboardView(
    todayTotal: int,
    monthTotal: int,
    totalAmount: int,
    expenseCount: int,
    rankedCategories: seq<(string, int)>,  // donut_labels / donut_amounts
    topCategories: seq<(string, int)>,
    recentExpenses: seq<Expense>)

  /** What the dashboard shows for the list `exps` (already newest first) on day `today`. */
  predicate IsDashboardOf(v: DashboardView, exps: seq<Expense>, today: Date) {
    && v.totalAmount == SumOf(exps, AmountOf)
    && v.todayTotal == AmountOn(exps, today)
    && v.monthTotal == AmountInMonth(exps, today.year, today.month)
    && v.expenseCount == |exps|
    && v.rankedCategories == RankedCategories(exps)
    && v.topCategories == Take(v.rankedCategories, 3)
    && v.recentExpenses == Take(exps, 5)
  }

  /**
   * The loops of the dashboard handler: the grand total, then today's and this
   * month's totals (today's by comparing `strftime` texts), then the category
   * totals, then the ranking.
   */
  method SummarizeDashboard(exps: seq<Expense>, today: Date) returns (v: DashboardView)
    requires ValidDate(today)
    requires AllDatesValid(exps)
    ensures IsDashboardOf(v, exps, today)
  {
    var totalAmount := 0;
    for i := 0 to |exps|
      invariant totalAmount == SumOf(exps[..i], AmountOf)
    {
      assert exps[..i + 1] == exps[..i] + [exps[i]];
      SumOfSnoc(exps[..i], exps[i], AmountOf);
      totalAmount := totalAmount + exps[i].amount;
    }
    assert exps[..|exps|] == exps;

    var todayText := FormatDate(today);
    var todayTotal, monthTotal := 0, 0;
    for i := 0 to |exps|
      invariant todayTotal == AmountOn(exps[..i], today)
      invariant monthTotal == AmountInMonth(exps[..i], today.year, today.month)
    {
      var e := exps[i];
      assert exps[..i + 1][..i] == exps[..i];
      FormatInjective(e.date, today);
      if FormatDate(e.date) == todayText {
        todayTotal := todayTotal + e.amount;
      }
      if e.date.year == today.year && e.date.month == today.month {
        monthTotal := monthTotal + e.amount;
      }
    }

    var categoryTotals: seq<(string, int)> := [];
    for i := 0 to |exps|
      invariant categoryTotals == CategoryTotals(exps[..i])
    {
      TallyStep(exps, i, CategoryOf, AmountOf);
      categoryTotals := AddTo(categoryTotals, CategoryOf(exps[i]), exps[i].amount);
    }

    var ranked := SortDesc(categoryTotals, Total);
    v := DashboardView(todayTotal, monthTotal, totalAmount, |exps|, ranked, Take(ranked, 3), Take(exps, 5));
  }

  /** An entry of the ranking is the total of a category that occurs in `exps`. */
  lemma RankedEntry(exps: seq<Expense>, i: int)
    requires 0 <= i < |RankedCategories(exps)|
    ensures RankedCategories(exps)[i].0 != ""
    ensures RankedCategories(exps)[i].1 == KeyTotal(exps, CategoryOf, AmountOf, RankedCategories(exps)[i].0)
  {
    var t, r := CategoryTotals(exps), RankedCategories(exps);
    var j := PermutedEntry(t, r, i);
    TallyEntry(exps, CategoryOf, AmountOf, j);
    assert Keys(t)[j] in FirstSeen(exps, CategoryOf);
  }

  /** The donut lists each category once, and a label exactly when some expense carries it. */
  lemma RankedLabels(exps: seq<Expense>)
    ensures NoDup(Keys(RankedCategories(exps)))
    ensures forall c :: c in Keys(RankedCategories(exps)) <==> exists i :: 0 <= i < |exps| && CategoryOf(exps[i]) == c
  {
    var t := CategoryTotals(exps);
    PermutationKeepsNoDup(t, RankedCategories(exps));
    PermutedKeys(t, RankedCategories(exps));
  }

  /** The donut's amounts add up to the grand total. */
  lemma RankedSum(exps: seq<Expense>)
    ensures SumValues(RankedCategories(exps)) == SumOf(exps, AmountOf)
  {
    SortSum(CategoryTotals(exps), Total, Total);
  }

  /**
   * The category breakdown of the dashboard: every category appears once, the
   * empty category is shown as "Other", each entry holds the total of its
   * category, and the entries add up to the grand total.
   */
  lemma DashboardCategories(v: DashboardView, exps: seq<Expense>, today: Date)
    requires IsDashboardOf(v, exps, today)
    ensures NoDup(Keys(v.rankedCategories))
    ensures forall c :: c in Keys(v.rankedCategories) <==> exists i :: 0 <= i < |exps| && CategoryOf(exps[i]) == c
    ensures forall i :: 0 <= i < |v.rankedCategories| ==> v.rankedCategories[i].0 != ""
    ensures forall i :: 0 <= i < |v.rankedCategories| ==>
              v.rankedCategories[i].1 == KeyTotal(exps, CategoryOf, AmountOf, v.rankedCategories[i].0)
    ensures SumValues(v.rankedCategories) == v.totalAmount
  {
    RankedLabels(exps);
    RankedSum(exps);
    forall i | 0 <= i < |v.rankedCategories|
      ensures v.rankedCategories[i].0 != ""
      ensures v.rankedCategories[i].1 == KeyTotal(exps, CategoryOf, AmountOf, v.rankedCategories[i].0)
    {
      RankedEntry(exps, i);
    }
  }

  /**
   * The top categories: at most three, in non-increasing order of total, none
   * of the categories left out has a larger total than one shown, and
   * categories with equal totals keep the order in which they were first seen.
   */
  lemma TopCategories(v: DashboardView, exps: seq<Expense>, today: Date)
    requires IsDashboardOf(v, exps, today)
    ensures |v.topCategories| <= 3
    ensures |v.topCategories| == |v.rankedCategories| || |v.topCategories| == 3
    ensures SortedDesc(v.topCategories, Total)
    ensures forall i, j :: 0 <= i < |v.topCategories| <= j < |v.rankedCategories| ==>
              v.topCategories[i].1 >= v.rankedCategories[j].1
    ensures forall a :: WithKey(v.rankedCategories, Total, a) == WithKey(CategoryTotals(exps), Total, a)
  {
    var r := v.rankedCategories;
    forall i, j | 0 <= i < |v.topCategories| <= j < |r| ensures v.topCategories[i].1 >= r[j].1 {
      assert v.topCategories[i] == r[i];
    }
    forall a ensures WithKey(r, Total, a) == WithKey(CategoryTotals(exps), Total, a) {
      SortStable(CategoryTotals(exps), Total, a);
    }
  }

  /**
   * The recent expenses: the first five of the newest-first list (all of it when
   * shorter), and no expense left out is more recent than one shown.
   */
  lemma RecentExpenses(v: DashboardView, exps: seq<Expense>, today: Date)
    requires IsDashboardOf(v, exps, today)
    requires SortedDesc(exps, DateKey)
    requires AllDatesValid(exps)
    ensures |v.recentExpenses| == if |exps| < 5 then |exps| else 5
    ensures v.recentExpenses <= exps
    ensures forall i, j :: 0 <= i < |v.recentExpenses| <= j < |exps| ==>
              !Before(v.recentExpenses[i].date, exps[j].date)
  {
    var rec := v.recentExpenses;
    forall i, j | 0 <= i < |rec| <= j < |exps| ensures !Before(rec[i].date, exps[j].date) {
      assert rec[i] == exps[i];
      assert DateKey(exps[i]) >= DateKey(exps[j]);
      OrdinalOrder(exps[i].date, exps[j].date);
    }
  }

  /**
   * With non-negative amounts, today's total is part of this month's total,
   * which is part of the grand total.
   */
  lemma {:induction false} TodayWithinMonth(s: seq<Expense>, today: Date)
    requires forall e | e in s :: e.amount >= 0
    ensures 0 <= AmountOn(s, today) <= AmountInMonth(s, today.year, today.month) <= SumOf(s, AmountOf)
  {
    if s != [] {
      var init, e := s[..|s| - 1], s[|s| - 1];
      assert s == init + [e];
      assert e in s;
      TodayWithinMonth(init, today);
      SumOfSnoc(init, e, AmountOf);
    }
  }

  // ---------------------------------------------------------------------
  // Reports

  datatype ReportView = ReportView(
    categories: seq<string>,   // also bar_labels
    amounts: seq<int>,         // also bar_amounts
    totalAmount: int,
    expenseCount: int,
    timeLabels: seq<string>,
    timeAmounts: seq<int>)

  /** The labels of a timeline, as `strftime('%Y-%m-%d')` prints them. */
  function Labels(t: seq<(Date, int)>): (ls: seq<string>)
    requires forall i :: 0 <= i < |t| ==> ValidDate(t[i].0)
    ensures |ls| == |t|
    ensures forall i :: 0 <= i < |t| ==> ls[i] == FormatDate(t[i].0)
  {
    seq(|t|, i requires 0 <= i < |t| => FormatDate(t[i].0))
  }

  /** The dates of a timeline of `exps` are dates of expenses of `exps`. */
  lemma TimelineDates(exps: seq<Expense>)
    requires AllDatesValid(exps)
    ensures forall i :: 0 <= i < |Timeline(exps)| ==> ValidDate(Timeline(exps)[i].0)
    ensures forall i :: 0 <= i < |Timeline(exps)| ==> exists e | e in exps :: e.date == Timeline(exps)[i].0
  {
    var t := Tally(exps, DateOf, AmountOf);
    var r := Timeline(exps);
    forall i | 0 <= i < |r| ensures ValidDate(r[i].0) && exists e | e in exps :: e.date == r[i].0 {
      assert r[i] in multiset(r);
      assert r[i] in t;
      var j :| 0 <= j < |t| && t[j] == r[i];
      assert Keys(t)[j] in FirstSeen(exps, DateOf);
      var k :| 0 <= k < |exps| && DateOf(exps[k]) == r[i].0;
      assert exps[k] in exps;
    }
  }

  /** What the reports page shows for the user's expenses `exps` (in table order). */
  predicate IsReportOf(v: ReportView, exps: seq<Expense>)
    requires AllDatesValid(exps)
  {
    && v.categories == Keys(CategoryTotals(exps))
    && v.amounts == Values(CategoryTotals(exps))
    && v.totalAmount == SumOf(exps, AmountOf)
    && v.expenseCount == |exps|
    && v.timeLabels == TimeLabels(exps)
    && v.timeAmounts == Values(Timeline(exps))
  }

  /**
   * The loop of the reports handler: per category, grand total and per day in
   * one pass, then the day labels in ascending order with their totals.
   */
  method SummarizeReports(exps: seq<Expense>) returns (v: ReportView)
    requires AllDatesValid(exps)
    ensures IsReportOf(v, exps)
  {
    var categoryTotals: seq<(string, int)> := [];
    var totalAmount := 0;
    var timelineTotals: seq<(Date, int)> := [];
    for i := 0 to |exps|
      invariant categoryTotals == CategoryTotals(exps[..i])
      invariant totalAmount == SumOf(exps[..i], AmountOf)
      invariant timelineTotals == Tally(exps[..i], DateOf, AmountOf)
    {
      var e := exps[i];
      TallyStep(exps, i, CategoryOf, AmountOf);
      TallyStep(exps, i, DateOf, AmountOf);
      assert exps[..i + 1] == exps[..i] + [e];
      SumOfSnoc(exps[..i], e, AmountOf);
      categoryTotals := AddTo(categoryTotals, CategoryOf(e), e.amount);
      totalAmount := totalAmount + e.amount;
      timelineTotals := AddTo(timelineTotals, e.date, e.amount);
    }
    assert exps[..|exps|] == exps;
    var ordered := SortDesc(timelineTotals, EarliestFirst);
    assert ordered == Timeline(exps);
    TimelineDates(exps);
    var labels := Labels(ordered);
    v := ReportView(Keys(categoryTotals), Values(categoryTotals), totalAmount, |exps|, labels, Values(ordered));
    assert v.timeLabels == TimeLabels(exps);
  }

  /** The days of the timeline are in strictly ascending order. */
  lemma TimelineAscending(exps: seq<Expense>)
    requires AllDatesValid(exps)
    ensures forall i, j :: 0 <= i < j < |Timeline(exps)| ==> Before(Timeline(exps)[i].0, Timeline(exps)[j].0)
  {
    var t := Tally(exps, DateOf, AmountOf);
    var r := Timeline(exps);
    TimelineDates(exps);
    assert DistinctKeys(t, EarliestFirst) by {
      forall i, j | 0 <= i < j < |t| ensures EarliestFirst(t[i]) != EarliestFirst(t[j]) {
        assert Keys(t)[i] != Keys(t)[j];
        var a := PermutedEntry(r, t, i);
        var b := PermutedEntry(r, t, j);
        OrdinalOrder(t[i].0, t[j].0);
      }
    }
    SortStrict(t, EarliestFirst);
    forall i, j | 0 <= i < j < |r| ensures Before(r[i].0, r[j].0) {
      OrdinalOrder(r[i].0, r[j].0);
    }
  }

  /** Every expense's day has an entry in the timeline. */
  lemma TimelineCovers(exps: seq<Expense>, k: int) returns (a: int)
    requires 0 <= k < |exps|
    ensures 0 <= a < |Timeline(exps)| && Timeline(exps)[a].0 == exps[k].date
  {
    var t := Tally(exps, DateOf, AmountOf);
    assert DateOf(exps[k]) == exps[k].date;
    assert exps[k].date in Keys(t);
    var j :| 0 <= j < |t| && Keys(t)[j] == exps[k].date;
    a := PermutedEntry(Timeline(exps), t, j);
  }

  /** Each day's entry of the timeline holds the total of the expenses of that day. */
  lemma TimelineEntry(exps: seq<Expense>, i: int)
    requires 0 <= i < |Timeline(exps)|
    ensures Timeline(exps)[i].1 == KeyTotal(exps, DateOf, AmountOf, Timeline(exps)[i].0)
  {
    var t := Tally(exps, DateOf, AmountOf);
    var j := PermutedEntry(t, Timeline(exps), i);
    TallyEntry(exps, DateOf, AmountOf, j);
  }

  /** The labels of the timeline chart (`time_labels`). */
  function TimeLabels(exps: seq<Expense>): (ls: seq<string>)
    requires AllDatesValid(exps)
    ensures |ls| == |Timeline(exps)|
  {
    TimelineDates(exps);
    Labels(Timeline(exps))
  }

  /** Each label of the timeline chart reads back as its day. */
  lemma LabelsParse(exps: seq<Expense>)
    requires AllDatesValid(exps)
    ensures forall i :: 0 <= i < |TimeLabels(exps)| ==> ParseDate(TimeLabels(exps)[i]) == Some(Timeline(exps)[i].0)
  {
    var r, labels := Timeline(exps), TimeLabels(exps);
    TimelineDates(exps);
    forall i | 0 <= i < |r| ensures ParseDate(labels[i]) == Some(r[i].0) {
      ParseFormat(r[i].0);
    }
  }

  /**
   * The labels ascend strictly, as dates and as strings (so each day appears
   * once, in the order `sorted` gives the texts).
   */
  lemma LabelsAscending(exps: seq<Expense>)
    requires AllDatesValid(exps)
    ensures forall i, j :: 0 <= i < j < |TimeLabels(exps)| ==> Before(Timeline(exps)[i].0, Timeline(exps)[j].0)
    ensures forall i, j :: 0 <= i < j < |TimeLabels(exps)| ==> StrLess(TimeLabels(exps)[i], TimeLabels(exps)[j])
  {
    var r, labels := Timeline(exps), TimeLabels(exps);
    TimelineDates(exps);
    TimelineAscending(exps);
    forall i, j | 0 <= i < j < |r| ensures StrLess(labels[i], labels[j]) {
      FormatOrder(r[i].0, r[j].0);
    }
  }

  /** The labels are exactly the texts of the expenses' days. */
  lemma LabelsCover(exps: seq<Expense>)
    requires AllDatesValid(exps)
    ensures forall e | e in exps :: FormatDate(e.date) in TimeLabels(exps)
    ensures forall i :: 0 <= i < |TimeLabels(exps)| ==> exists e | e in exps :: TimeLabels(exps)[i] == FormatDate(e.date)
  {
    var r, labels := Timeline(exps), TimeLabels(exps);
    TimelineDates(exps);
    forall i | 0 <= i < |r| ensures exists e | e in exps :: labels[i] == FormatDate(e.date) {
      var e :| e in exps && e.date == r[i].0;
      assert labels[i] == FormatDate(e.date);
    }
    forall e | e in exps ensures FormatDate(e.date) in labels {
      var k :| 0 <= k < |exps| && exps[k] == e;
      var a := TimelineCovers(exps, k);
      assert labels[a] == FormatDate(e.date);
    }
  }


  /**
   * The amounts of the timeline chart: each is the total of the expenses of
   * its day, and together they add up to the grand total.
   */
  lemma ReportTimeAmounts(exps: seq<Expense>)
    ensures forall i :: 0 <= i < |Timeline(exps)| ==>
              Values(Timeline(exps))[i] == KeyTotal(exps, DateOf, AmountOf, Timeline(exps)[i].0)
    ensures SumValues(Timeline(exps)) == SumOf(exps, AmountOf)
  {
    SortSum(Tally(exps, DateOf, AmountOf), EarliestFirst, Total);
    forall i | 0 <= i < |Timeline(exps)|
      ensures Values(Timeline(exps))[i] == KeyTotal(exps, DateOf, AmountOf, Timeline(exps)[i].0)
    {
      TimelineEntry(exps, i);
    }
  }

  /**
   * The category bars: each category once, in first-seen order, each with the
   * total of its category, adding up to the grand total.
   */
  lemma ReportCategories(v: ReportView, exps: seq<Expense>)
    requires AllDatesValid(exps)
    requires IsReportOf(v, exps)
    ensures v.categories == FirstSeen(exps, CategoryOf)
    ensures |v.amounts| == |v.categories|
    ensures forall i :: 0 <= i < |v.categories| ==> v.amounts[i] == KeyTotal(exps, CategoryOf, AmountOf, v.categories[i])
    ensures SumValues(CategoryTotals(exps)) == v.totalAmount
  {
    forall i | 0 <= i < |v.categories| ensures v.amounts[i] == KeyTotal(exps, CategoryOf, AmountOf, v.categories[i]) {
      TallyEntry(exps, CategoryOf, AmountOf, i);
    }
  }
}
