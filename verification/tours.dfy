/** A tour and the edits that change its member and expense lists: adding a
    member or an expense appends it; deleting a member cascades to every
    expense that member paid for or shares in; deleting an expense removes it
    by id. Every edit keeps the rest of the lists in their original order. */
module Tours {

  import opened Model
  import opened Seqs
  import Balances
  import Aggregates

  /** A tour as stored. The id and dates come from the clock when the tour is
      created and are carried along unchanged. */
  datatype Tour = Tour(
    id: string,
    name: string,
    description: string,
    startDate: Date,
    endDate: Date,
    members: seq<Member>,
    expenses: seq<Expense>)

  function MemberIsNot(id: MemberId): Member -> bool {
    (m: Member) => m.id != id
  }

  /** An expense survives the deletion of member `id` unless that member paid
      for it or shares in it. */
  function ExpenseSpares(id: MemberId): Expense -> bool {
    (e: Expense) => e.paidBy != id && id !in e.participants
  }

  function ExpenseIsNot(id: ExpenseId): Expense -> bool {
    (e: Expense) => e.id != id
  }

  function ExpenseIds(es: seq<Expense>): set<ExpenseId> {
    set e | e in es :: e.id
  }

  /** Some expense names `id` as payer or participant. */
  ghost predicate Referenced(id: MemberId, es: seq<Expense>) {
    exists e :: e in es && (e.paidBy == id || id in e.participants)
  }

  // ---------------------------------------------------------------------------
  // Edits
  // ---------------------------------------------------------------------------

  /** Appends a new member; the tour's expenses are untouched. */
  function AddMember(t: Tour, id: MemberId, name: string, contact: string): (r: Tour)
    ensures r.members == t.members + [Member(id, name, contact)]
    ensures r.expenses == t.expenses
    ensures MemberIdSet(r.members) == MemberIdSet(t.members) + {id}
    ensures r == t.(members := r.members)
  {
    var m := Member(id, name, contact);
    assert forall x :: x in t.members + [m] <==> x in t.members || x == m;
    t.(members := t.members + [m])
  }

  /** Appends the expense `addExpense` builds, with its Hotel/Transport flag
      derived from the category; the members are untouched. */
  function AddExpense(t: Tour, id: ExpenseId, description: string, amount: real, category: Category,
                      date: Date, paidBy: MemberId, participants: seq<MemberId>): (r: Tour)
    ensures r.members == t.members
    ensures |r.expenses| == |t.expenses| + 1 && r.expenses[..|t.expenses|] == t.expenses
    ensures var e := r.expenses[|t.expenses|];
      e.id == id && e.description == description && e.amount == amount && e.category == category
      && e.date == date && e.paidBy == paidBy && e.participants == participants && FlagConsistent(e)
    ensures r == t.(expenses := r.expenses)
  {
    var e := MakeExpense(id, description, amount, category, date, paidBy, participants);
    assert (t.expenses + [e])[..|t.expenses|] == t.expenses;
    t.(expenses := t.expenses + [e])
  }

  /** Removes the member and, with it, every expense the member paid for or
      shares in. */
  function DeleteMember(t: Tour, memberId: MemberId): (r: Tour)
    ensures memberId !in MemberIdSet(r.members)
    ensures forall m :: m in r.members <==> m in t.members && m.id != memberId
    ensures forall e :: e in r.expenses <==> e in t.expenses && e.paidBy != memberId && memberId !in e.participants
    ensures !Referenced(memberId, r.expenses)
    // every surviving record survives as often as it occurred, in its original order
    ensures forall m :: multiset(r.members)[m] == if m.id != memberId then multiset(t.members)[m] else 0
    ensures forall e :: multiset(r.expenses)[e] == if ExpenseSpares(memberId)(e) then multiset(t.expenses)[e] else 0
    ensures IsSubsequence(r.members, t.members) && IsSubsequence(r.expenses, t.expenses)
    ensures r.id == t.id && r.name == t.name && r.description == t.description
    ensures r.startDate == t.startDate && r.endDate == t.endDate
  {
    FilterIsSubsequence(t.members, MemberIsNot(memberId));
    FilterIsSubsequence(t.expenses, ExpenseSpares(memberId));
    forall m ensures multiset(Filter(t.members, MemberIsNot(memberId)))[m] ==
      if m.id != memberId then multiset(t.members)[m] else 0
    {
      FilterCount(t.members, MemberIsNot(memberId), m);
    }
    forall e ensures multiset(Filter(t.expenses, ExpenseSpares(memberId)))[e] ==
      if ExpenseSpares(memberId)(e) then multiset(t.expenses)[e] else 0
    {
      FilterCount(t.expenses, ExpenseSpares(memberId), e);
    }
    t.(members := Filter(t.members, MemberIsNot(memberId)),
       expenses := Filter(t.expenses, ExpenseSpares(memberId)))
  }

  /** Removes every expense with the given id; the members are untouched. */
  function DeleteExpense(t: Tour, expenseId: ExpenseId): (r: Tour)
    ensures r.members == t.members
    ensures expenseId !in ExpenseIds(r.expenses)
    ensures forall e :: e in r.expenses <==> e in t.expenses && e.id != expenseId
    ensures forall e :: multiset(r.expenses)[e] == if e.id != expenseId then multiset(t.expenses)[e] else 0
    ensures IsSubsequence(r.expenses, t.expenses)
    ensures r == t.(expenses := r.expenses)
  {
    FilterIsSubsequence(t.expenses, ExpenseIsNot(expenseId));
    forall e ensures multiset(Filter(t.expenses, ExpenseIsNot(expenseId)))[e] ==
      if e.id != expenseId then multiset(t.expenses)[e] else 0
    {
      FilterCount(t.expenses, ExpenseIsNot(expenseId), e);
    }
    t.(expenses := Filter(t.expenses, ExpenseIsNot(expenseId)))
  }

  // ---------------------------------------------------------------------------
  // Round trips
  // ---------------------------------------------------------------------------

  /** Deleting an expense just added under a fresh id gives back the tour. */
  lemma DeleteAddedExpense(t: Tour, id: ExpenseId, description: string, amount: real, category: Category,
                           date: Date, paidBy: MemberId, participants: seq<MemberId>)
    requires id !in ExpenseIds(t.expenses)
    ensures DeleteExpense(AddExpense(t, id, description, amount, category, date, paidBy, participants), id) == t
  {
    var e := MakeExpense(id, description, amount, category, date, paidBy, participants);
    FilterSnoc(t.expenses, e, ExpenseIsNot(id));
    FilterKeepsAll(t.expenses, ExpenseIsNot(id));
    assert t.expenses + [] == t.expenses;
  }

  /** Deleting a member just added under an id nobody has and no expense
      mentions gives back the tour. */
  lemma DeleteAddedMember(t: Tour, id: MemberId, name: string, contact: string)
    requires id !in MemberIdSet(t.members)
    requires !Referenced(id, t.expenses)
    ensures DeleteMember(AddMember(t, id, name, contact), id) == t
  {
    var m := Member(id, name, contact);
    FilterSnoc(t.members, m, MemberIsNot(id));
    FilterKeepsAll(t.members, MemberIsNot(id));
    FilterKeepsAll(t.expenses, ExpenseSpares(id));
    assert t.members + [] == t.members;
  }

  // ---------------------------------------------------------------------------
  // Effects on the balances
  // ---------------------------------------------------------------------------

  /** A member added under an id no expense mentions gets an entry, at zero. */
  lemma AddMemberStartsAtZero(t: Tour, id: MemberId, name: string, contact: string)
    requires !Referenced(id, t.expenses)
    ensures var after := Balances.CalculateBalances(AddMember(t, id, name, contact).members, t.expenses);
      && after.Keys == MemberIdSet(t.members) + {id}
      && after[id].totalPaid == 0.0 && after[id].totalShare == 0.0 && after[id].final == 0.0
  {
    Balances.UnreferencedZero(id, t.expenses);
  }

  /** Adding a member leaves every other member's figures as they were. */
  lemma AddMemberKeepsOthers(t: Tour, id: MemberId, name: string, contact: string)
    ensures var before := Balances.CalculateBalances(t.members, t.expenses);
      var after := Balances.CalculateBalances(AddMember(t, id, name, contact).members, t.expenses);
      forall k :: k in before ==>
        && k in after
        && after[k].totalPaid == before[k].totalPaid
        && after[k].totalShare == before[k].totalShare
        && after[k].final == before[k].final
  {
    var before := Balances.CalculateBalances(t.members, t.expenses);
    var after := Balances.CalculateBalances(AddMember(t, id, name, contact).members, t.expenses);
    forall k | k in before
      ensures k in after && after[k].totalPaid == before[k].totalPaid
      ensures after[k].totalShare == before[k].totalShare && after[k].final == before[k].final
    {
      var paid, share := Balances.TotalPaid(k, t.expenses), Balances.TotalShare(k, t.expenses);
      assert after[k].totalPaid == paid && after[k].totalShare == share && after[k].final == paid - share;
      assert before[k].totalPaid == paid && before[k].totalShare == share && before[k].final == paid - share;
    }
  }

  /** Adding an expense raises every member's figures by exactly its payment
      and its share of the new expense. */
  lemma AddExpenseBalances(t: Tour, id: ExpenseId, description: string, amount: real, category: Category,
                           date: Date, paidBy: MemberId, participants: seq<MemberId>)
    ensures var e := MakeExpense(id, description, amount, category, date, paidBy, participants);
      var before := Balances.CalculateBalances(t.members, t.expenses);
      var after := Balances.CalculateBalances(t.members, AddExpense(t, id, description, amount, category, date, paidBy, participants).expenses);
      && after.Keys == before.Keys
      && forall k :: k in after ==>
           after[k].totalPaid == before[k].totalPaid + Balances.PaidIn(k, e)
           && after[k].totalShare == before[k].totalShare + Balances.ShareIn(k, e)
  {
    var e := MakeExpense(id, description, amount, category, date, paidBy, participants);
    assert AddExpense(t, id, description, amount, category, date, paidBy, participants).expenses == t.expenses + [e];
    forall k
      ensures Balances.TotalPaid(k, t.expenses + [e]) == Balances.TotalPaid(k, t.expenses) + Balances.PaidIn(k, e)
      ensures Balances.TotalShare(k, t.expenses + [e]) == Balances.TotalShare(k, t.expenses) + Balances.ShareIn(k, e)
    {
      Balances.TotalsAppend(k, t.expenses, [e]);
      assert [e][1..] == [];
    }
  }

  // ---------------------------------------------------------------------------
  // Invariants the edits keep
  // ---------------------------------------------------------------------------

  /** Deleting a member keeps every remaining expense's payer and participants
      among the remaining members. */
  lemma DeleteMemberKeepsReferences(t: Tour, memberId: MemberId)
    requires Balances.ReferencesMembers(t.members, t.expenses)
    ensures var r := DeleteMember(t, memberId);
      Balances.ReferencesMembers(r.members, r.expenses)
  {
    var r := DeleteMember(t, memberId);
    forall id | id in MemberIdSet(t.members) && id != memberId ensures id in MemberIdSet(r.members) {
      var m :| m in t.members && m.id == id;
      assert m in r.members;
    }
  }

  /** Adding a member keeps every reference valid: the member ids only grow. */
  lemma AddMemberKeepsReferences(t: Tour, id: MemberId, name: string, contact: string)
    requires Balances.ReferencesMembers(t.members, t.expenses)
    ensures var r := AddMember(t, id, name, contact);
      Balances.ReferencesMembers(r.members, r.expenses)
  {
  }

  /** Adding an expense whose payer and participants are members, with at
      least one participant, keeps every reference valid. */
  lemma AddExpenseKeepsReferences(t: Tour, id: ExpenseId, description: string, amount: real, category: Category,
                                  date: Date, paidBy: MemberId, participants: seq<MemberId>)
    requires Balances.ReferencesMembers(t.members, t.expenses)
    requires paidBy in MemberIdSet(t.members) && |participants| > 0
    requires forall p :: p in participants ==> p in MemberIdSet(t.members)
    ensures var r := AddExpense(t, id, description, amount, category, date, paidBy, participants);
      Balances.ReferencesMembers(r.members, r.expenses)
  {
  }

  /** Deleting an expense keeps every remaining reference valid. */
  lemma DeleteExpenseKeepsReferences(t: Tour, expenseId: ExpenseId)
    requires Balances.ReferencesMembers(t.members, t.expenses)
    ensures var r := DeleteExpense(t, expenseId);
      Balances.ReferencesMembers(r.members, r.expenses)
  {
  }

  /** After the cascade, the remaining members' final balances still sum to zero. */
  lemma DeleteMemberConserves(t: Tour, memberId: MemberId)
    requires Balances.ReferencesMembers(t.members, t.expenses)
    ensures var r := DeleteMember(t, memberId);
      Balances.SumFinal(MemberIds(r.members), Balances.CalculateBalances(r.members, r.expenses)) == 0.0
  {
    DeleteMemberKeepsReferences(t, memberId);
    var r := DeleteMember(t, memberId);
    Balances.Conservation(r.members, r.expenses);
  }

  /** After the cascade, the category totals still add up to the total of
      the remaining expenses, Hotel and Transport included. */
  lemma DeleteMemberCategoryTotals(t: Tour, memberId: MemberId)
    ensures var r := DeleteMember(t, memberId);
      Aggregates.SumOver(AllCategories, Aggregates.CategoryTotals(r.expenses)) == Aggregates.SumAmounts(r.expenses)
  {
    Aggregates.CategoryTotalsSum(DeleteMember(t, memberId).expenses);
  }

  /** Every expense `AddExpense` stores has a flag that agrees with its
      category, so the daily view never shows Hotel or Transport. */
  lemma AddExpenseKeepsFlags(t: Tour, id: ExpenseId, description: string, amount: real, category: Category,
                             date: Date, paidBy: MemberId, participants: seq<MemberId>)
    requires forall e :: e in t.expenses ==> FlagConsistent(e)
    ensures var r := AddExpense(t, id, description, amount, category, date, paidBy, participants);
      forall e :: e in r.expenses ==> FlagConsistent(e)
  {
  }
}
