/** The per-tour aggregates: the daily breakdown, which leaves out the
    tour-wide Hotel and Transport costs, the per-category totals behind the
    category chart and the per-date totals behind the spending-trend chart,
    which count every expense. */
module Aggregates {

  import opened Model
  import opened Seqs

  /** The sum of the amounts of `es`. */
  function SumAmounts(es: seq<Expense>): real {
    if es == [] then 0.0 else es[0].amount + SumAmounts(es[1..])
  }

  lemma {:induction false} SumAmountsSnoc(es: seq<Expense>, e: Expense)
    ensures SumAmounts(es + [e]) == SumAmounts(es) + e.amount
  {
    if es == [] {
      assert ([] + [e])[1..] == [];
    } else {
      assert (es + [e])[1..] == es[1..] + [e];
      SumAmountsSnoc(es[1..], e);
    }
  }

  lemma SumAmountsCons(x: Expense, es: seq<Expense>)
    ensures SumAmounts([x] + es) == x.amount + SumAmounts(es)
  {
    assert ([x] + es)[1..] == es;
  }

  // ---------------------------------------------------------------------------
  // Daily breakdown
  // ---------------------------------------------------------------------------

  /** The daily view shows an expense on its own date unless its stored flag
      marks it as a hotel or transport cost. */
  function ShownOnDay(d: Date): Expense -> bool {
    (e: Expense) => !e.isHotelOrTransport && e.date == d
  }

  /** The dates of the expenses the daily view shows. */
  function ShownDates(es: seq<Expense>): set<Date> {
    set e | e in es && !e.isHotelOrTransport :: e.date
  }

  lemma ShownDatesSnoc(es: seq<Expense>, e: Expense)
    ensures ShownDates(es + [e]) == ShownDates(es) + (if e.isHotelOrTransport then {} else {e.date})
  {
    var lhs, rhs := ShownDates(es + [e]), ShownDates(es) + (if e.isHotelOrTransport then {} else {e.date});
    forall d | d in lhs ensures d in rhs {
      var x :| x in es + [e] && !x.isHotelOrTransport && x.date == d;
      if x != e {
        assert x in es;
      }
    }
    forall d | d in rhs ensures d in lhs {
      if d in ShownDates(es) {
        var x :| x in es && !x.isHotelOrTransport && x.date == d;
        assert x in es + [e];
      } else {
        assert e in es + [e];
      }
    }
  }

  /** The daily buckets: one per date holding a shown expense, each listing the
      shown expenses of that date in the order they were added. */
  function DailyExpenses(expenses: seq<Expense>): (daily: map<Date, seq<Expense>>)
    ensures daily.Keys == ShownDates(expenses)
    ensures forall d :: d in daily ==> daily[d] == Filter(expenses, ShownOnDay(d))
  {
    if expenses == [] then map[]
    else
      var init := expenses[..|expenses| - 1];
      var e := expenses[|expenses| - 1];
      assert expenses == init + [e];
      var daily := DailyExpenses(init);
      DailyStep(daily, init, e);
      AddToDay(daily, e)
  }

  /** A date without shown expenses has an empty bucket filter. */
  lemma NotShownEmpty(es: seq<Expense>, d: Date)
    ensures d !in ShownDates(es) ==> Filter(es, ShownOnDay(d)) == []
  {
    var f := Filter(es, ShownOnDay(d));
    if f != [] {
      assert f[0] in es && !f[0].isHotelOrTransport && f[0].date == d;
    }
  }

  /** The buckets after adding `e` to the buckets `daily`. */
  function AddToDay(daily: map<Date, seq<Expense>>, e: Expense): map<Date, seq<Expense>> {
    if e.isHotelOrTransport then daily
    else daily[e.date := (if e.date in daily then daily[e.date] else []) + [e]]
  }

  /** Adding one expense to the buckets of `es` gives the buckets of `es + [e]`. */
  lemma DailyStep(daily: map<Date, seq<Expense>>, es: seq<Expense>, e: Expense)
    requires daily.Keys == ShownDates(es)
    requires forall d :: d in daily ==> daily[d] == Filter(es, ShownOnDay(d))
    ensures AddToDay(daily, e).Keys == ShownDates(es + [e])
    ensures forall d :: d in AddToDay(daily, e) ==> AddToDay(daily, e)[d] == Filter(es + [e], ShownOnDay(d))
  {
    ShownDatesSnoc(es, e);
    forall d | d in AddToDay(daily, e) ensures AddToDay(daily, e)[d] == Filter(es + [e], ShownOnDay(d)) {
      DailyStepAt(daily, es, e, d);
    }
  }

  lemma DailyStepAt(daily: map<Date, seq<Expense>>, es: seq<Expense>, e: Expense, d: Date)
    requires daily.Keys == ShownDates(es)
    requires d in daily ==> daily[d] == Filter(es, ShownOnDay(d))
    requires d in AddToDay(daily, e)
    ensures AddToDay(daily, e)[d] == Filter(es + [e], ShownOnDay(d))
  {
    ShownSnocAt(es, e, d);
    var f := Filter(es, ShownOnDay(d));
    if !e.isHotelOrTransport && d == e.date {
      if d !in daily {
        NotShownEmpty(es, d);
        assert f + [e] == [e];
      }
    } else {
      assert f + [] == f;
    }
  }

  lemma ShownSnocAt(es: seq<Expense>, e: Expense, d: Date)
    ensures Filter(es + [e], ShownOnDay(d))
         == Filter(es, ShownOnDay(d)) + (if !e.isHotelOrTransport && e.date == d then [e] else [])
  {
    FilterSnoc(es, e, ShownOnDay(d));
  }

  /** When every stored flag agrees with its category, no Hotel or Transport
      expense appears in the daily view, and every other expense appears in
      the bucket of its date and in no other. */
  lemma DailyBuckets(expenses: seq<Expense>)
    requires forall e :: e in expenses ==> FlagConsistent(e)
    ensures var daily := DailyExpenses(expenses);
      forall d, e :: d in daily && e in daily[d] ==> !IsHotelOrTransport(e.category) && e.date == d
    ensures var daily := DailyExpenses(expenses);
      forall e :: e in expenses && !IsHotelOrTransport(e.category) ==> e.date in daily && e in daily[e.date]
  {
  }

  /** Each bucket keeps the order in which its expenses were added. */
  lemma DailyOrder(expenses: seq<Expense>, d: Date)
    requires d in DailyExpenses(expenses)
    ensures IsSubsequence(DailyExpenses(expenses)[d], expenses)
  {
    FilterIsSubsequence(expenses, ShownOnDay(d));
  }

  // ---------------------------------------------------------------------------
  // Category totals
  // ---------------------------------------------------------------------------

  function InCategory(c: Category): Expense -> bool {
    (e: Expense) => e.category == c
  }

  /** What the tour spent in category `c`. */
  function CategoryTotal(es: seq<Expense>, c: Category): real {
    SumAmounts(Filter(es, InCategory(c)))
  }

  /** The category chart's table: every category, starting at zero, plus the
      amount of each expense added to its category. */
  function CategoryTotals(expenses: seq<Expense>): (totals: map<Category, real>)
    ensures forall c :: c in totals
    ensures forall c :: totals[c] == CategoryTotal(expenses, c)
  {
    if expenses == [] then ZeroTotals()
    else
      var init := expenses[..|expenses| - 1];
      var e := expenses[|expenses| - 1];
      assert expenses == init + [e];
      var totals := CategoryTotals(init);
      CategoryStep(totals, init, e);
      AddToCategory(totals, e)
  }

  /** Every category at zero. */
  function ZeroTotals(): (zero: map<Category, real>)
    ensures forall c :: c in zero && zero[c] == 0.0
  {
    var zero := map c: Category | c in AllCategories :: 0.0;
    assert forall c :: c in zero by {
      forall c ensures c in zero {
        CategoryListed(c);
      }
    }
    zero
  }

  /** The totals after adding `e` to its category. */
  function AddToCategory(totals: map<Category, real>, e: Expense): map<Category, real>
    requires e.category in totals
  {
    totals[e.category := totals[e.category] + e.amount]
  }

  lemma CategoryStep(totals: map<Category, real>, es: seq<Expense>, e: Expense)
    requires forall c :: c in totals && totals[c] == CategoryTotal(es, c)
    ensures forall c :: c in AddToCategory(totals, e) && AddToCategory(totals, e)[c] == CategoryTotal(es + [e], c)
  {
    forall c ensures c in AddToCategory(totals, e) && AddToCategory(totals, e)[c] == CategoryTotal(es + [e], c) {
      CategorySnocAt(es, e, c);
    }
  }

  lemma CategorySnocAt(es: seq<Expense>, e: Expense, c: Category)
    ensures CategoryTotal(es + [e], c) == CategoryTotal(es, c) + (if e.category == c then e.amount else 0.0)
  {
    var f := Filter(es, InCategory(c));
    FilterSnoc(es, e, InCategory(c));
    if e.category == c {
      assert Filter(es + [e], InCategory(c)) == f + [e];
      SumAmountsSnoc(f, e);
    } else {
      assert Filter(es + [e], InCategory(c)) == f + [];
      assert f + [] == f;
    }
  }

  /** The sum of `totals` over the categories `cats`. */
  function SumOver(cats: seq<Category>, totals: map<Category, real>): real
    requires forall c :: c in cats ==> c in totals
  {
    if cats == [] then 0.0 else totals[cats[0]] + SumOver(cats[1..], totals)
  }

  /** Raising the total of category `k` by `a`, and no other, raises the sum
      over a list naming `k` once by `a`. */
  lemma {:induction false} SumOverShift(cats: seq<Category>, before: map<Category, real>,
                                        after: map<Category, real>, k: Category, a: real)
    requires forall c :: c in cats ==> c in before && c in after
    requires forall c :: c in cats ==> after[c] == before[c] + (if c == k then a else 0.0)
    requires NoDuplicates(cats)
    ensures SumOver(cats, after) == SumOver(cats, before) + (if k in cats then a else 0.0)
  {
    if cats != [] {
      assert NoDuplicates(cats[1..]);
      assert cats[0] == k ==> k !in cats[1..];
      SumOverShift(cats[1..], before, after, k, a);
    }
  }

  lemma {:induction false} ZeroSum(cats: seq<Category>, totals: map<Category, real>)
    requires forall c :: c in cats ==> c in totals && totals[c] == 0.0
    ensures SumOver(cats, totals) == 0.0
  {
    if cats != [] {
      ZeroSum(cats[1..], totals);
    }
  }

  /** The category totals add up to the total spent: every expense lands in
      exactly one category. */
  lemma {:induction false} CategoryTotalsSum(expenses: seq<Expense>)
    ensures SumOver(AllCategories, CategoryTotals(expenses)) == SumAmounts(expenses)
  {
    if expenses == [] {
      ZeroSum(AllCategories, CategoryTotals(expenses));
    } else {
      var init := expenses[..|expenses| - 1];
      var e := expenses[|expenses| - 1];
      assert expenses == init + [e];
      CategoryTotalsSum(init);
      CategorySumStep(init, e);
    }
  }

  lemma CategorySumStep(es: seq<Expense>, e: Expense)
    requires SumOver(AllCategories, CategoryTotals(es)) == SumAmounts(es)
    ensures SumOver(AllCategories, CategoryTotals(es + [e])) == SumAmounts(es + [e])
  {
    CategoryTotalsShift(es, e);
    CategoryListed(e.category);
    CategoriesDistinct();
    SumOverShift(AllCategories, CategoryTotals(es), CategoryTotals(es + [e]), e.category, e.amount);
    SumAmountsSnoc(es, e);
  }

  /** Adding an expense raises its own category's total by its amount and no other. */
  lemma CategoryTotalsShift(es: seq<Expense>, e: Expense)
    ensures forall c :: CategoryTotals(es + [e])[c] == CategoryTotals(es)[c] + (if c == e.category then e.amount else 0.0)
  {
    forall c ensures CategoryTotals(es + [e])[c] == CategoryTotals(es)[c] + (if c == e.category then e.amount else 0.0) {
      CategorySnocAt(es, e, c);
    }
  }

  // ---------------------------------------------------------------------------
  // Per-date totals (spending trend)
  // ---------------------------------------------------------------------------

  function OnDate(d: Date): Expense -> bool {
    (e: Expense) => e.date == d
  }

  /** The dates of all expenses. */
  function Dates(es: seq<Expense>): set<Date> {
    set e | e in es :: e.date
  }

  lemma DatesSnoc(es: seq<Expense>, e: Expense)
    ensures Dates(es + [e]) == Dates(es) + {e.date}
  {
    var lhs, rhs := Dates(es + [e]), Dates(es) + {e.date};
    forall d | d in lhs ensures d in rhs {
      var x :| x in es + [e] && x.date == d;
      if x != e {
        assert x in es;
      }
    }
    forall d | d in rhs ensures d in lhs {
      if d in Dates(es) {
        var x :| x in es && x.date == d;
        assert x in es + [e];
      } else {
        assert e in es + [e];
      }
    }
  }

  /** What the tour spent on date `d`, Hotel and Transport included. */
  function DateTotal(es: seq<Expense>, d: Date): real {
    SumAmounts(Filter(es, OnDate(d)))
  }

  /** The trend chart's table: one entry per date with any expense, holding
      the total of all expenses of that date, Hotel and Transport included. */
  function DailyTotals(expenses: seq<Expense>): (totals: map<Date, real>)
    ensures totals.Keys == Dates(expenses)
    ensures forall d :: d in totals ==> totals[d] == DateTotal(expenses, d)
  {
    if expenses == [] then map[]
    else
      var init := expenses[..|expenses| - 1];
      var e := expenses[|expenses| - 1];
      assert expenses == init + [e];
      var totals := DailyTotals(init);
      DateStep(totals, init, e);
      AddToDate(totals, e)
  }

  /** The totals after adding `e` to its date, starting a date at zero. */
  function AddToDate(totals: map<Date, real>, e: Expense): map<Date, real> {
    totals[e.date := (if e.date in totals then totals[e.date] else 0.0) + e.amount]
  }

  lemma DateStep(totals: map<Date, real>, es: seq<Expense>, e: Expense)
    requires totals.Keys == Dates(es)
    requires forall d :: d in totals ==> totals[d] == DateTotal(es, d)
    ensures AddToDate(totals, e).Keys == Dates(es + [e])
    ensures forall d :: d in AddToDate(totals, e) ==> AddToDate(totals, e)[d] == DateTotal(es + [e], d)
  {
    DatesSnoc(es, e);
    forall d | d in AddToDate(totals, e) ensures AddToDate(totals, e)[d] == DateTotal(es + [e], d) {
      DateStepAt(totals, es, e, d);
    }
  }

  lemma DateStepAt(totals: map<Date, real>, es: seq<Expense>, e: Expense, d: Date)
    requires totals.Keys == Dates(es)
    requires d in totals ==> totals[d] == DateTotal(es, d)
    requires d in AddToDate(totals, e)
    ensures AddToDate(totals, e)[d] == DateTotal(es + [e], d)
  {
    DateSnocAt(es, e, d);
    if d == e.date && d !in totals {
      NoDateEmpty(es, d);
    }
  }

  /** A date without expenses has an empty filter. */
  lemma NoDateEmpty(es: seq<Expense>, d: Date)
    ensures d !in Dates(es) ==> Filter(es, OnDate(d)) == []
  {
    var f := Filter(es, OnDate(d));
    if f != [] {
      assert f[0] in es && f[0].date == d;
    }
  }

  lemma DateSnocAt(es: seq<Expense>, e: Expense, d: Date)
    ensures DateTotal(es + [e], d) == DateTotal(es, d) + (if e.date == d then e.amount else 0.0)
  {
    var f := Filter(es, OnDate(d));
    FilterSnoc(es, e, OnDate(d));
    if e.date == d {
      assert Filter(es + [e], OnDate(d)) == f + [e];
      SumAmountsSnoc(f, e);
    } else {
      assert Filter(es + [e], OnDate(d)) == f + [];
      assert f + [] == f;
    }
  }

  function FixedCostOn(d: Date): Expense -> bool {
    (e: Expense) => e.isHotelOrTransport && e.date == d
  }

  lemma {:induction false} DateSplit(es: seq<Expense>, d: Date)
    ensures DateTotal(es, d)
         == SumAmounts(Filter(es, ShownOnDay(d))) + SumAmounts(Filter(es, FixedCostOn(d)))
  {
    if es != [] {
      var x := es[0];
      DateSplit(es[1..], d);
      var all, shown, fixed := Filter(es[1..], OnDate(d)), Filter(es[1..], ShownOnDay(d)), Filter(es[1..], FixedCostOn(d));
      if x.date == d {
        assert Filter(es, OnDate(d)) == [x] + all;
        SumAmountsCons(x, all);
        if x.isHotelOrTransport {
          assert Filter(es, FixedCostOn(d)) == [x] + fixed;
          assert Filter(es, ShownOnDay(d)) == shown;
          SumAmountsCons(x, fixed);
        } else {
          assert Filter(es, ShownOnDay(d)) == [x] + shown;
          assert Filter(es, FixedCostOn(d)) == fixed;
          SumAmountsCons(x, shown);
        }
      } else {
        assert Filter(es, OnDate(d)) == all;
        assert Filter(es, ShownOnDay(d)) == shown;
        assert Filter(es, FixedCostOn(d)) == fixed;
      }
    }
  }

  /** A date's trend total is its daily-breakdown total plus the hotel and
      transport costs of that date that the breakdown leaves out. */
  lemma TrendIsBreakdownPlusFixedCosts(expenses: seq<Expense>, d: Date)
    requires d in DailyTotals(expenses)
    ensures var daily := DailyExpenses(expenses);
      DailyTotals(expenses)[d]
        == (if d in daily then SumAmounts(daily[d]) else 0.0) + SumAmounts(Filter(expenses, FixedCostOn(d)))
  {
    DateSplit(expenses, d);
    if d !in DailyExpenses(expenses) {
      NotShownEmpty(expenses, d);
    }
  }
}
