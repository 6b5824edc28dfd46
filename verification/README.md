# Tour expense splitter: balances, settlements and aggregates

This project models the computational core of `TourExpenseSplitter`, a
browser application for sharing the costs of a group tour. A tour has members
and expenses. Each expense has an amount, a category, a date, a payer and a
list of participants who split it equally. From these the application derives:

- the **balance table**: for every member, what the member paid, the
  member's share of the expenses it took part in, and the final balance
  (paid minus share);
- the **settlement suggestions**: members owed more than the tolerance
  (0.01) become creditors, and members owing more than it become debtors.
  Both lists are sorted by amount, largest first. A two-cursor greedy walk
  then moves the smaller outstanding amount from the current debtor to the
  current creditor, and records it as a payment when it exceeds the
  tolerance;
- the **daily breakdown**: expenses grouped by date, leaving out the
  tour-wide Hotel and Transport costs;
- the **category totals** and **per-date totals** behind the two charts.
  Both count every expense;
- the **edits**: adding a member or an expense, deleting an expense, and
  deleting a member. Deleting a member cascades to every expense that member
  paid for or shares in.

Modules, one file each:

- `Seqs` (`seqs.dfy`): order-preserving filter, subsequences, de-duplication.
- `Model` (`model.dfy`): members, expenses, categories, balance and
  settlement records, and the tolerance.
- `Balances` (`balances.dfy`): the balance table as a fold over the
  expenses, and per-member reference totals.
- `Settlements` (`settlements.dfy`): partition, stable descending sort, and
  the walk as a state machine (`Step`, `Walk`), with one invariant lemma per
  property.
- `Aggregates` (`aggregates.dfy`): the daily breakdown, category totals and
  per-date totals.
- `Tours` (`tours.dfy`): the tour record and its edits.

Modelling choices:

- Amounts are exact `real`s.
- Maps stand for the JavaScript objects used as tables.
- The order in which the application enumerates the balance table is its
  insertion order. Member ids are never integer-like strings, so this is the
  members' order with each id kept at its first occurrence. `Model.MemberIds`
  is defined that way. Its contract states only that every id appears
  exactly once; the order matters only for how equal amounts are ordered by
  the stable sort.
- JavaScript's `Array.prototype.sort` is stable, so the sort is a stable
  insertion sort.
- Settlement records carry member ids where the application shows names. The
  walk itself never looks at names.

One behaviour worth knowing, proved by
`Settlements.SmallDebtsLeaveCreditUnsettled`: the tolerance is applied to
each side separately, so the suggestions do not always bring every balance
within it. Take one expense of 0.027, paid by `a` and shared by `a`, `b` and
`c`. Then `a` is owed 0.018 while `b` and `c` owe 0.009 each. Nobody counts
as a debtor, and no payment is suggested.

## Model

| member | source | states |
|---|---|---|
| Model.MakeExpense | app.js:239-249 | The stored expense keeps the given id, description, amount, category, date, payer and participants, and its Hotel/Transport flag is set exactly when the category is Hotel or Transport |
| Model.CategoryListed | app.js:5 | Every category appears in the application's fixed category list |
| Model.CategoriesDistinct | app.js:5 | The category list names no category twice |
| Model.MemberIds | app.js:283-290 | The enumeration order of the balance table lists every member id exactly once and nothing else |
| Balances.CalculateBalances | app.js:276-318 | The table has an entry for exactly the current members. Each entry's paid and share equal the per-expense reference sums over all expenses. Payers or participants that are not members credit or charge nobody. `final` is paid minus share, and the name is that of the last member with the id |
| Balances.LastNameIsLast | app.js:283-290 | The name kept for an id is the one at the last position holding that id, since later members overwrite earlier entries |
| Balances.BalancesOrderIndependent | app.js:293-309 | Any permutation of the expense list gives the same balance table |
| Balances.StaleExpenseIgnored | app.js:299-307 | An expense whose payer and participants are all non-members changes no entry, wherever it stands in the list |
| Balances.UnreferencedZero | app.js:293-309 | A member mentioned by no expense has paid nothing and owes nothing |
| Balances.Conservation | app.js:293-315 | When every expense has participants and names only members, the final balances sum to exactly zero, even when a participant is listed twice |
| Balances.ExampleBalances | app.js:293-315 | One expense of 0.027 paid by `a` and shared by `a`, `b` and `c` leaves `a` at 0.018 and the other two at -0.009 |
| Settlements.Creditors | app.js:327-333 | Holds exactly the members whose final balance exceeds 0.01, each with that balance. Distinct ids give distinct entries |
| Settlements.Debtors | app.js:327-333 | Holds exactly the members whose final balance is below -0.01, each with the magnitude of its debt. Distinct ids give distinct entries |
| Settlements.SortDescending | app.js:336-337 | The result is a permutation of the input, ordered by amount, largest first |
| Settlements.SortedCreditors | app.js:327-337 | The sorted creditor list has no repeated member, holds every member owed more than 0.01, holds no one else, and every amount exceeds 0.01 |
| Settlements.SortedDebtors | app.js:327-337 | The sorted debtor list has no repeated member, holds every member owing more than 0.01, holds no one else, and every amount exceeds 0.01 |
| Settlements.Step | app.js:340-358 | One iteration keeps both lists' lengths, moves each cursor on by at most one, and always moves at least one, so the loop terminates |
| Settlements.Walk | app.js:339-358 | The loop ends with both cursors in range and at least one list used up |
| Settlements.Settle | app.js:339-360 | Every emitted payment exceeds 0.01 and runs from a debtor to a creditor. There are no payments when either side is empty, and otherwise at most one fewer than the parties. Every party keeps its id with an amount left between zero and its initial amount |
| Settlements.SettleWithin | app.js:343-357 | No creditor receives more than was taken off its credit, and no debtor pays more than was taken off its debt |
| Settlements.SettleStops | app.js:340-358 | When the walk stops, every creditor or every debtor has less than 0.01 left |
| Settlements.SettleConserves | app.js:343-354 | The total taken off the debtors equals the total taken off the creditors |
| Settlements.SettleEmits | app.js:343-354 | The payments are exactly the transfers above 0.01, in the order the walk made them. Every transfer moves at least 0.01 |
| Settlements.SettleReceivedAccounts | app.js:339-358 | What a creditor receives in payments, plus 0.01 for each silent transfer to it, is exactly its initial credit minus what it has left |
| Settlements.SettlePaidAccounts | app.js:339-358 | What a debtor pays in payments, plus 0.01 for each silent transfer from it, is exactly its initial debt minus what it has left |
| Settlements.SettleTwo | app.js:339-360 | One creditor owed 50 and one debtor owing 50 give the single payment of 50 from the debtor to the creditor |
| Settlements.PlanCreditLeft | app.js:327-358 | Over the balance table, every member owed more than 0.01 still has between nothing and all of its balance owed after the payments and silent transfers |
| Settlements.PlanDebtLeft | app.js:327-358 | Over the balance table, every member owing more than 0.01 still owes between nothing and all of its debt after the payments and silent transfers |
| Settlements.PlanStops | app.js:340-358 | The walk over the sorted table stops with every creditor record, or every debtor record, below 0.01 |
| Settlements.PlanSettles | app.js:327-358 | After the walk, every member owed more than 0.01 is left owed less than 0.01, or every member owing more than 0.01 is left owing less than 0.01 |
| Settlements.CalculateSettlements | app.js:320-361 | Every suggestion exceeds 0.01 and runs from a member with final below -0.01 to a member with final above 0.01. Nobody pays more than it owes or receives more than it is owed. There are no suggestions when either side is empty, and otherwise at most creditors + debtors - 1 |
| Settlements.SettlementsSettle | app.js:320-361 | The suggestions are the walk's payments over the tour's balance table. Each member's payments and silent transfers take between nothing and all of its balance off it, and afterwards all creditors or all debtors are within 0.01 of settled |
| Settlements.NothingOwedNoSettlements | app.js:327-340 | If no member owes more than 0.01, no payment is suggested, whatever the credits |
| Settlements.SmallDebtsLeaveCreditUnsettled | app.js:327-345 | In that example `a` is owed more than 0.01, yet no payment is suggested: settling does not bring every balance within the tolerance |
| Aggregates.DailyExpenses | app.js:363-381 | There is a bucket for exactly the dates of unflagged expenses. Each bucket is the order-preserving selection of the unflagged expenses of that date |
| Aggregates.DailyBuckets | app.js:369-378 | When every flag agrees with its category, no bucket holds a Hotel or Transport expense or an expense of another date. Every other expense sits in the bucket of its date |
| Aggregates.DailyOrder | app.js:369-378 | Each bucket lists its expenses in the order they were added to the tour |
| Aggregates.ZeroTotals | app.js:408 | The category table starts with every category at zero |
| Aggregates.CategoryTotals | app.js:407-412 | Every category has an entry, equal to the sum of the amounts of the expenses in that category |
| Aggregates.CategoryTotalsSum | app.js:407-412 | The category totals add up to the total of all expenses, as every expense lands in exactly one category |
| Aggregates.DailyTotals | app.js:464-469 | There is an entry for exactly the dates of the expenses. Each entry is the sum of all expenses of that date, Hotel and Transport included |
| Aggregates.TrendIsBreakdownPlusFixedCosts | app.js:464-469 | A date's trend total is its daily-breakdown total (zero when the date has no bucket) plus that date's Hotel and Transport costs |
| Tours.AddMember | app.js:196-207 | The member is appended, the member ids grow by exactly the new id, and everything else about the tour, its expenses included, is unchanged |
| Tours.AddExpense | app.js:235-251 | Only the expense list changes, and the old expenses are kept as a prefix. The new last expense carries the given id, description, amount, category, date, payer and participants, and a flag consistent with its category |
| Tours.DeleteMember | app.js:216-223 | The id is gone from the members, and no remaining expense names it as payer or participant. Every other member, and every expense not mentioning the id, remains as many times as it occurred, in its original order. The tour's id, name, description and dates are kept |
| Tours.DeleteExpense | app.js:261-265 | Only the expense list changes, and the id is gone from it. Every expense with another id remains as many times as it occurred, in its original order |
| Tours.DeleteAddedExpense | app.js:239-265 | Deleting an expense just added under a fresh id gives back the original tour |
| Tours.DeleteAddedMember | app.js:200-223 | Deleting a member just added under a fresh, unreferenced id gives back the original tour |
| Tours.AddMemberStartsAtZero | app.js:283-290 | A new member no expense mentions gets an entry with paid, share and final all zero |
| Tours.AddMemberKeepsOthers | app.js:283-315 | Adding a member leaves every existing member's paid, share and final unchanged |
| Tours.AddExpenseBalances | app.js:293-309 | Adding an expense keeps the table's keys and raises each member's paid and share by exactly its payment and share in the new expense |
| Tours.DeleteMemberKeepsReferences | app.js:220-223 | The cascade keeps every remaining expense's payer and participants among the remaining members |
| Tours.AddMemberKeepsReferences | app.js:196-207 | Adding a member keeps every expense's payer and participants among the members |
| Tours.AddExpenseKeepsReferences | app.js:235-251 | Adding an expense whose payer and participants are members, with at least one participant, keeps every reference valid |
| Tours.DeleteExpenseKeepsReferences | app.js:261-265 | Deleting an expense keeps every remaining reference valid |
| Tours.DeleteMemberConserves | app.js:220-223 | After the cascade, the remaining members' final balances still sum to zero |
| Tours.DeleteMemberCategoryTotals | app.js:220-223 | After the cascade, the category totals still add up to the total of the remaining expenses |
| Tours.AddExpenseKeepsFlags | app.js:248 | Adding an expense keeps every stored flag consistent with its category |

## Left out

- User interface, DOM rendering, modals, alerts and `localStorage`
  persistence: these are I/O. The edits are pure functions from tour to tour.
- The current-tour lookup (`getCurrentTour`) and its early returns when no
  tour is selected. Every operation takes the tour, or its members and
  expenses, as a parameter.
- Tour creation, selection and deletion, search filtering, sample data,
  report and CSV export, and chart drawing. This includes which category
  slices are drawn and the sorted, formatted date labels. None of them
  change the data the core computes.
- Generated ids (`'member_' + Date.now()`, `'expense_' + Date.now()`) and
  dates. These are parameters, and the round-trip lemmas state the
  freshness they rely on as a precondition.
- IEEE-754 doubles, `parseFloat` and `toFixed`. Amounts are exact reals, so
  rounding in the equal split and in the walk's subtractions is not
  modelled.
- The form checks on the add-expense form (app.js:1230-1243: a payer, a
  category and at least one participant must be chosen). They live in the
  UI handler, not in `addExpense`. `Tours.AddExpense` accepts any input, and
  the checks appear as preconditions of `Tours.AddExpenseKeepsReferences`.
- Settlements.CalculateSettlements: payments name members by id, while the
  application shows the members' names. Two members with the same name are
  therefore distinguishable in the model but not on screen.
- Model.MemberIds: the contract states that every member id appears exactly
  once and nothing else does, not that ids are kept in first-occurrence
  order, although the definition keeps them so.
- Settlements.SortDescending: the contract states a sorted permutation and
  does not state stability (the order among equal amounts), although the
  definition is a stable insertion sort.
- Settlements.CalculateSettlements: a transfer of exactly 0.01 is
  subtracted from both parties but not recorded, since only amounts above
  0.01 are emitted. Hence its own contract bounds what each member pays and
  receives from above only. The exact accounting, with the silent transfers
  counted, is stated by `Settlements.SettlementsSettle`. The walk state keeps
  a log of every transfer (`moved`) for that purpose; the application keeps
  no such log.
- Aggregates.DailyExpenses: the order in which the dates of the breakdown
  are enumerated is not modelled. The breakdown is a map from date to
  bucket.
- Aggregates.CategoryTotals: categories form a closed datatype, so the
  application's fallback for a category outside its list (`|| 0`) never
  arises.
