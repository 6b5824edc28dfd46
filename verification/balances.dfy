/** The balance calculator: folds a tour's expenses into a table holding, for
    every current member, what the member paid, its equal-split share of the
    expenses it took part in, and the difference of the two.

    `TotalPaid` and `TotalShare` are the reference definitions (one expense at
    a time, independent of the table); `CalculateBalances` is the table-update
    fold the application performs, and its contract ties the two together. */
module Balances {

  import opened Model
  import opened Seqs

  // ---------------------------------------------------------------------------
  // Reference definitions
  // ---------------------------------------------------------------------------

  /** What member `id` paid for expense `e`. */
  function PaidIn(id: MemberId, e: Expense): real {
    if e.paidBy == id then e.amount else 0.0
  }

  /** `share` once for every time `id` is listed in `participants`. */
  function Charged(id: MemberId, participants: seq<MemberId>, share: real): real {
    if participants == [] then 0.0
    else (if participants[0] == id then share else 0.0) + Charged(id, participants[1..], share)
  }

  /** Member `id`'s share of `e`: the equal split `amount / |participants|`,
      once per time `id` is listed. An expense without participants charges
      nobody (the per-person loop has nothing to visit). */
  function ShareIn(id: MemberId, e: Expense): real {
    if |e.participants| == 0 then 0.0
    else Charged(id, e.participants, e.amount / (|e.participants| as real))
  }

  function TotalPaid(id: MemberId, es: seq<Expense>): real {
    if es == [] then 0.0 else PaidIn(id, es[0]) + TotalPaid(id, es[1..])
  }

  function TotalShare(id: MemberId, es: seq<Expense>): real {
    if es == [] then 0.0 else ShareIn(id, es[0]) + TotalShare(id, es[1..])
  }

  // ---------------------------------------------------------------------------
  // The table-update fold
  // ---------------------------------------------------------------------------

  /** The name of the last member carrying `id` ("" when there is none). */
  function LastName(members: seq<Member>, id: MemberId): string {
    if members == [] then ""
    else if members[|members| - 1].id == id then members[|members| - 1].name
    else LastName(members[..|members| - 1], id)
  }

  /** Position `k` holds the last member carrying `id`. */
  ghost predicate LastWithId(members: seq<Member>, id: MemberId, k: int) {
    && 0 <= k < |members| && members[k].id == id
    && forall k' :: k < k' < |members| ==> members[k'].id != id
  }

  /** `LastName` is the name at the last position holding the id. */
  lemma {:induction false} LastNameIsLast(members: seq<Member>, id: MemberId)
    requires id in MemberIdSet(members)
    ensures exists k :: LastWithId(members, id, k) && LastName(members, id) == members[k].name
  {
    var n := |members|;
    if members[n - 1].id == id {
      assert LastWithId(members, id, n - 1);
    } else {
      var init := members[..n - 1];
      assert members == init + [members[n - 1]];
      var m :| m in members && m.id == id;
      assert m in init;
      LastNameIsLast(init, id);
      var k :| LastWithId(init, id, k) && LastName(init, id) == init[k].name;
      assert LastWithId(members, id, k);
    }
  }

  /** One zeroed entry per member id; a later member with a repeated id
      replaces the earlier entry, so the name is the last such member's. */
  function InitBalances(members: seq<Member>): (b: map<MemberId, Balance>)
    ensures b.Keys == MemberIdSet(members)
    ensures forall id :: id in b ==>
      b[id].totalPaid == 0.0 && b[id].totalShare == 0.0 && b[id].final == 0.0
    ensures forall id :: id in b ==> b[id].name == LastName(members, id)
  {
    if members == [] then map[]
    else
      var init := members[..|members| - 1];
      var last := members[|members| - 1];
      assert members == init + [last];
      assert MemberIdSet(members) == MemberIdSet(init) + {last.id};
      InitBalances(init)[last.id := Balance(last.name, 0.0, 0.0, 0.0)]
  }

  /** Credits `amount` to the payer's entry, if the payer has one. */
  function CreditPayer(b: map<MemberId, Balance>, payer: MemberId, amount: real)
    : (r: map<MemberId, Balance>)
    ensures r.Keys == b.Keys
    ensures forall id :: id in r ==>
      && r[id].name == b[id].name
      && r[id].totalShare == b[id].totalShare
      && r[id].final == b[id].final
      && r[id].totalPaid == b[id].totalPaid + (if id == payer then amount else 0.0)
  {
    if payer in b then b[payer := b[payer].(totalPaid := b[payer].totalPaid + amount)] else b
  }

  /** Charges `share` to one participant's entry, if the participant has one. */
  function ChargeShare(b: map<MemberId, Balance>, participant: MemberId, share: real)
    : (r: map<MemberId, Balance>)
    ensures r.Keys == b.Keys
    ensures forall id :: id in r ==>
      && r[id].name == b[id].name
      && r[id].totalPaid == b[id].totalPaid
      && r[id].final == b[id].final
      && r[id].totalShare == b[id].totalShare + (if id == participant then share else 0.0)
  {
    if participant in b then b[participant := b[participant].(totalShare := b[participant].totalShare + share)]
    else b
  }

  /** Charges `share` once per listing in `participants`. */
  function ChargeShares(b: map<MemberId, Balance>, participants: seq<MemberId>, share: real)
    : (r: map<MemberId, Balance>)
    ensures r.Keys == b.Keys
    ensures forall id :: id in r ==>
      && r[id].name == b[id].name
      && r[id].totalPaid == b[id].totalPaid
      && r[id].final == b[id].final
      && r[id].totalShare == b[id].totalShare + Charged(id, participants, share)
  {
    if participants == [] then b
    else ChargeShares(ChargeShare(b, participants[0], share), participants[1..], share)
  }

  function ApplyExpense(b: map<MemberId, Balance>, e: Expense): (r: map<MemberId, Balance>)
    ensures r.Keys == b.Keys
    ensures forall id :: id in r ==>
      && r[id].name == b[id].name
      && r[id].final == b[id].final
      && r[id].totalPaid == b[id].totalPaid + PaidIn(id, e)
      && r[id].totalShare == b[id].totalShare + ShareIn(id, e)
  {
    var paid := CreditPayer(b, e.paidBy, e.amount);
    if |e.participants| == 0 then paid
    else ChargeShares(paid, e.participants, e.amount / (|e.participants| as real))
  }

  /** Applies the expenses in list order. */
  function ApplyExpenses(b: map<MemberId, Balance>, es: seq<Expense>): (r: map<MemberId, Balance>)
    ensures r.Keys == b.Keys
    ensures forall id :: id in r ==>
      && r[id].name == b[id].name
      && r[id].final == b[id].final
      && r[id].totalPaid == b[id].totalPaid + TotalPaid(id, es)
      && r[id].totalShare == b[id].totalShare + TotalShare(id, es)
  {
    if es == [] then b else ApplyExpenses(ApplyExpense(b, es[0]), es[1..])
  }

  /** The last pass: every entry's `final` becomes paid minus share. */
  function Finalize(b: map<MemberId, Balance>): map<MemberId, Balance>
  {
    map id | id in b :: b[id].(final := b[id].totalPaid - b[id].totalShare)
  }

  /** The balance table of a tour: an entry for exactly the current members,
      holding the reference totals. Ids that are not current members (a stale
      payer or participant) get no entry and so credit or charge nobody. */
  function CalculateBalances(members: seq<Member>, expenses: seq<Expense>): (b: map<MemberId, Balance>)
    ensures b.Keys == MemberIdSet(members)
    ensures forall id :: id in b ==>
      && b[id].totalPaid == TotalPaid(id, expenses)
      && b[id].totalShare == TotalShare(id, expenses)
      && b[id].final == TotalPaid(id, expenses) - TotalShare(id, expenses)
    ensures forall id :: id in b ==> b[id].name == LastName(members, id)
  {
    Finalize(ApplyExpenses(InitBalances(members), expenses))
  }

  // ---------------------------------------------------------------------------
  // Order independence and irrelevance of stale references
  // ---------------------------------------------------------------------------

  lemma {:induction false} TotalsAppend(id: MemberId, a: seq<Expense>, c: seq<Expense>)
    ensures TotalPaid(id, a + c) == TotalPaid(id, a) + TotalPaid(id, c)
    ensures TotalShare(id, a + c) == TotalShare(id, a) + TotalShare(id, c)
  {
    if a == [] {
      assert a + c == c;
    } else {
      assert (a + c)[0] == a[0];
      assert (a + c)[1..] == a[1..] + c;
      TotalsAppend(id, a[1..], c);
    }
  }

  /** Removing the same element from two permutations leaves permutations. */
  lemma RemoveMatching(a: seq<Expense>, c: seq<Expense>, k: nat)
    requires a != [] && k < |c| && c[k] == a[0]
    requires multiset(a) == multiset(c)
    ensures multiset(a[1..]) == multiset(c[..k] + c[k + 1..])
  {
    var c1, c2 := c[..k], c[k + 1..];
    assert a == [a[0]] + a[1..];
    assert c == c1 + [c[k]] + c2;
    assert multiset(c) == multiset(c1 + c2) + multiset{a[0]};
    assert multiset(a) == multiset(a[1..]) + multiset{a[0]};
    forall y ensures multiset(a[1..])[y] == multiset(c1 + c2)[y] {
      assert multiset(a)[y] == multiset(a[1..])[y] + multiset{a[0]}[y];
      assert multiset(c)[y] == multiset(c1 + c2)[y] + multiset{a[0]}[y];
    }
  }

  /** The totals depend only on which expenses there are, not on their order. */
  lemma {:induction false} TotalsPermutation(id: MemberId, a: seq<Expense>, c: seq<Expense>)
    requires multiset(a) == multiset(c)
    ensures TotalPaid(id, a) == TotalPaid(id, c)
    ensures TotalShare(id, a) == TotalShare(id, c)
  {
    if a == [] {
      assert c == [];
    } else {
      assert a[0] in multiset(c);
      var k :| 0 <= k < |c| && c[k] == a[0];
      var c1, c2 := c[..k], c[k + 1..];
      RemoveMatching(a, c, k);
      TotalsPermutation(id, a[1..], c1 + c2);
      assert c == (c1 + [c[k]]) + c2;
      TotalsAppend(id, c1, c2);
      TotalsAppend(id, c1 + [c[k]], c2);
      TotalsAppend(id, c1, [c[k]]);
      assert [c[k]][1..] == [];
    }
  }

  /** Reordering the expenses leaves the balance table unchanged. */
  lemma BalancesOrderIndependent(members: seq<Member>, a: seq<Expense>, c: seq<Expense>)
    requires multiset(a) == multiset(c)
    ensures CalculateBalances(members, a) == CalculateBalances(members, c)
  {
    var ba, bc := CalculateBalances(members, a), CalculateBalances(members, c);
    forall id | id in ba ensures ba[id] == bc[id] {
      TotalsPermutation(id, a, c);
    }
  }

  /** An expense whose payer and participants are all non-members changes no
      balance, wherever it stands in the list. */
  lemma StaleExpenseIgnored(members: seq<Member>, pre: seq<Expense>, e: Expense, post: seq<Expense>)
    requires e.paidBy !in MemberIdSet(members)
    requires forall p :: p in e.participants ==> p !in MemberIdSet(members)
    ensures CalculateBalances(members, pre + [e] + post) == CalculateBalances(members, pre + post)
  {
    var b1, b2 := CalculateBalances(members, pre + [e] + post), CalculateBalances(members, pre + post);
    forall id | id in b1 ensures b1[id] == b2[id] {
      StaleTotals(id, pre, e, post);
    }
  }

  lemma StaleTotals(id: MemberId, pre: seq<Expense>, e: Expense, post: seq<Expense>)
    requires e.paidBy != id && id !in e.participants
    ensures TotalPaid(id, pre + [e] + post) == TotalPaid(id, pre + post)
    ensures TotalShare(id, pre + [e] + post) == TotalShare(id, pre + post)
  {
    TotalsAppend(id, pre + [e], post);
    TotalsAppend(id, pre, [e]);
    TotalsAppend(id, pre, post);
    if |e.participants| > 0 {
      ChargedAbsent(id, e.participants, e.amount / (|e.participants| as real));
    }
    assert TotalPaid(id, [e]) == 0.0 && TotalShare(id, [e]) == 0.0 by {
      assert [e][1..] == [];
    }
  }

  /** A member that no expense mentions has paid nothing and owes nothing. */
  lemma {:induction false} UnreferencedZero(id: MemberId, es: seq<Expense>)
    requires forall e :: e in es ==> e.paidBy != id && id !in e.participants
    ensures TotalPaid(id, es) == 0.0 && TotalShare(id, es) == 0.0
  {
    if es != [] {
      assert es[0] in es;
      ChargedAbsent(id, es[0].participants, if |es[0].participants| == 0 then 0.0 else es[0].amount / (|es[0].participants| as real));
      assert forall e :: e in es[1..] ==> e in es;
      UnreferencedZero(id, es[1..]);
    }
  }

  lemma {:induction false} ChargedAbsent(id: MemberId, participants: seq<MemberId>, share: real)
    requires id !in participants
    ensures Charged(id, participants, share) == 0.0
  {
    if participants != [] {
      ChargedAbsent(id, participants[1..], share);
    }
  }

  // ---------------------------------------------------------------------------
  // Conservation: the finals of a consistent tour sum to zero
  // ---------------------------------------------------------------------------

  /** Every expense names a current member as payer, has at least one
      participant, and lists only current members as participants. */
  ghost predicate ReferencesMembers(members: seq<Member>, expenses: seq<Expense>) {
    forall e :: e in expenses ==>
      && |e.participants| > 0
      && e.paidBy in MemberIdSet(members)
      && forall p :: p in e.participants ==> p in MemberIdSet(members)
  }

  /** The sum of the `final` column over the listed ids. */
  function SumFinal(ids: seq<MemberId>, b: map<MemberId, Balance>): real {
    if ids == [] then 0.0
    else (if ids[0] in b then b[ids[0]].final else 0.0) + SumFinal(ids[1..], b)
  }

  function SumNet(ids: seq<MemberId>, es: seq<Expense>): real {
    if ids == [] then 0.0
    else (TotalPaid(ids[0], es) - TotalShare(ids[0], es)) + SumNet(ids[1..], es)
  }

  function SumPaidIn(ids: seq<MemberId>, e: Expense): real {
    if ids == [] then 0.0 else PaidIn(ids[0], e) + SumPaidIn(ids[1..], e)
  }

  function SumShareIn(ids: seq<MemberId>, e: Expense): real {
    if ids == [] then 0.0 else ShareIn(ids[0], e) + SumShareIn(ids[1..], e)
  }

  function SumCharged(ids: seq<MemberId>, ps: seq<MemberId>, share: real): real {
    if ids == [] then 0.0 else Charged(ids[0], ps, share) + SumCharged(ids[1..], ps, share)
  }

  lemma {:induction false} SumFinalIsSumNet(ids: seq<MemberId>, members: seq<Member>, es: seq<Expense>)
    requires forall id :: id in ids ==> id in MemberIdSet(members)
    ensures SumFinal(ids, CalculateBalances(members, es)) == SumNet(ids, es)
  {
    if ids != [] {
      SumFinalIsSumNet(ids[1..], members, es);
    }
  }

  lemma {:induction false} SumNetFirst(ids: seq<MemberId>, es: seq<Expense>)
    requires es != []
    ensures SumNet(ids, es) == SumPaidIn(ids, es[0]) - SumShareIn(ids, es[0]) + SumNet(ids, es[1..])
  {
    if ids != [] {
      SumNetFirst(ids[1..], es);
    }
  }

  /** A payer listed once among distinct ids is credited exactly once. */
  lemma {:induction false} SumPaidInOnce(ids: seq<MemberId>, e: Expense)
    requires NoDuplicates(ids)
    ensures SumPaidIn(ids, e) == if e.paidBy in ids then e.amount else 0.0
  {
    if ids != [] {
      assert NoDuplicates(ids[1..]);
      SumPaidInOnce(ids[1..], e);
      if ids[0] == e.paidBy {
        assert e.paidBy !in ids[1..];
      }
    }
  }

  lemma {:induction false} SumChargedFirst(ids: seq<MemberId>, x: MemberId, ps: seq<MemberId>, share: real)
    requires NoDuplicates(ids)
    ensures SumCharged(ids, [x] + ps, share) == SumCharged(ids, ps, share) + (if x in ids then share else 0.0)
  {
    if ids != [] {
      assert NoDuplicates(ids[1..]);
      SumChargedFirst(ids[1..], x, ps, share);
      assert ([x] + ps)[1..] == ps;
      if ids[0] == x {
        assert x !in ids[1..];
      }
    }
  }

  /** Over distinct ids that cover every participant, the charges add up to
      one share per listing (duplicates included). */
  lemma {:induction false} SumChargedAll(ids: seq<MemberId>, ps: seq<MemberId>, share: real)
    requires NoDuplicates(ids)
    requires forall p :: p in ps ==> p in ids
    ensures SumCharged(ids, ps, share) == (|ps| as real) * share
  {
    if ps == [] {
      SumChargedEmpty(ids, ps, share);
    } else {
      assert ps == [ps[0]] + ps[1..];
      SumChargedAll(ids, ps[1..], share);
      SumChargedFirst(ids, ps[0], ps[1..], share);
    }
  }

  lemma {:induction false} SumChargedEmpty(ids: seq<MemberId>, ps: seq<MemberId>, share: real)
    requires ps == []
    ensures SumCharged(ids, ps, share) == 0.0
  {
    if ids != [] {
      SumChargedEmpty(ids[1..], ps, share);
    }
  }

  lemma {:induction false} SumShareInCharged(ids: seq<MemberId>, e: Expense)
    requires |e.participants| > 0
    ensures SumShareIn(ids, e) == SumCharged(ids, e.participants, e.amount / (|e.participants| as real))
  {
    if ids != [] {
      SumShareInCharged(ids[1..], e);
    }
  }

  /** One expense among consistent references: paid once, shared out in full. */
  lemma SumContributionZero(ids: seq<MemberId>, e: Expense)
    requires NoDuplicates(ids)
    requires |e.participants| > 0 && e.paidBy in ids
    requires forall p :: p in e.participants ==> p in ids
    ensures SumPaidIn(ids, e) - SumShareIn(ids, e) == 0.0
  {
    var n := |e.participants| as real;
    SumPaidInOnce(ids, e);
    SumShareInCharged(ids, e);
    SumChargedAll(ids, e.participants, e.amount / n);
    assert n * (e.amount / n) == e.amount;
  }

  lemma {:induction false} SumNetZero(ids: seq<MemberId>, es: seq<Expense>)
    requires NoDuplicates(ids)
    requires forall e :: e in es ==>
      |e.participants| > 0 && e.paidBy in ids && forall p :: p in e.participants ==> p in ids
    ensures SumNet(ids, es) == 0.0
  {
    if es == [] {
      SumNetEmpty(ids, es);
    } else {
      SumNetFirst(ids, es);
      SumContributionZero(ids, es[0]);
      SumNetZero(ids, es[1..]);
    }
  }

  lemma {:induction false} SumNetEmpty(ids: seq<MemberId>, es: seq<Expense>)
    requires es == []
    ensures SumNet(ids, es) == 0.0
  {
    if ids != [] {
      SumNetEmpty(ids[1..], es);
    }
  }

  /** Conservation: when every expense references current members and has
      participants, the members' finals sum to exactly zero, whatever the
      amounts and even with a participant listed twice. */
  lemma Conservation(members: seq<Member>, expenses: seq<Expense>)
    requires ReferencesMembers(members, expenses)
    ensures SumFinal(MemberIds(members), CalculateBalances(members, expenses)) == 0.0
  {
    var ids := MemberIds(members);
    SumFinalIsSumNet(ids, members, expenses);
    SumNetZero(ids, expenses);
  }

  /** The three-member example: one expense of 0.027 paid by "a" and split
      evenly between "a", "b" and "c". */
  function ExampleMembers(): seq<Member> {
    [Member("a", "A", ""), Member("b", "B", ""), Member("c", "C", "")]
  }

  function ExampleExpenses(): seq<Expense> {
    [MakeExpense("e", "", 0.027, Food, "2024-01-01", "a", ["a", "b", "c"])]
  }

  /** In the example the payer is owed 0.018 and the two others owe 0.009 each. */
  lemma ExampleBalances()
    ensures var b := CalculateBalances(ExampleMembers(), ExampleExpenses());
      && b.Keys == {"a", "b", "c"}
      && b["a"].final == 0.018 && b["b"].final == -0.009 && b["c"].final == -0.009
  {
    var e := ExampleExpenses()[0];
    var ps: seq<MemberId> := ["a", "b", "c"];
    assert ps[1..] == ["b", "c"] && ps[1..][1..] == ["c"] && ps[1..][1..][1..] == [];
    assert ExampleExpenses()[1..] == [];
    assert MemberIdSet(ExampleMembers()) == {"a", "b", "c"} by {
      assert ExampleMembers()[0].id == "a" && ExampleMembers()[1].id == "b" && ExampleMembers()[2].id == "c";
    }
    assert "a" != "b" by { assert "a"[0] != "b"[0]; }
    assert "a" != "c" by { assert "a"[0] != "c"[0]; }
    assert "b" != "c" by { assert "b"[0] != "c"[0]; }
    assert ShareIn("a", e) == 0.009;
    assert ShareIn("b", e) == 0.009;
    assert ShareIn("c", e) == 0.009;
    assert TotalPaid("b", ExampleExpenses()) == 0.0;
    assert TotalPaid("c", ExampleExpenses()) == 0.0;
    assert TotalShare("b", ExampleExpenses()) == 0.009;
    assert TotalShare("c", ExampleExpenses()) == 0.009;
  }
}
