/** The records of the tour expense splitter: members, expenses and the
    derived balance and settlement records. Identifiers, dates and display
    strings are plain strings, as in the application; amounts are exact
    rationals rather than IEEE-754 doubles. */
module Model {

  import Seqs

  type MemberId = string
  type ExpenseId = string
  /** A calendar date in `YYYY-MM-DD` form; only compared for equality. */
  type Date = string

  /** The fixed expense categories, in the order the application lists them. */
  datatype Category =
    | Food | Hotel | Transport | Tour | Activity | Shopping | Entertainment | Misc

  const AllCategories: seq<Category> :=
    [Food, Hotel, Transport, Category.Tour, Activity, Shopping, Entertainment, Misc]

  /** Every category is listed. */
  lemma CategoryListed(c: Category)
    ensures c in AllCategories
  {
    match c
    case Food => assert AllCategories[0] == c;
    case Hotel => assert AllCategories[1] == c;
    case Transport => assert AllCategories[2] == c;
    case Tour => assert AllCategories[3] == c;
    case Activity => assert AllCategories[4] == c;
    case Shopping => assert AllCategories[5] == c;
    case Entertainment => assert AllCategories[6] == c;
    case Misc => assert AllCategories[7] == c;
  }

  /** No category is listed twice. */
  lemma CategoriesDistinct()
    ensures Seqs.NoDuplicates(AllCategories)
  {
  }

  /** Hotel and Transport are tour-wide fixed costs, kept out of the daily breakdown. */
  predicate IsHotelOrTransport(c: Category) {
    c == Hotel || c == Transport
  }

  datatype Member = Member(id: MemberId, name: string, contact: string)

  /** An expense as stored: `isHotelOrTransport` is a stored flag, derived from
      the category when the expense is created. */
  datatype Expense = Expense(
    id: ExpenseId,
    description: string,
    amount: real,
    category: Category,
    date: Date,
    paidBy: MemberId,
    participants: seq<MemberId>,
    isHotelOrTransport: bool)

  /** The stored flag agrees with the category. */
  predicate FlagConsistent(e: Expense) {
    e.isHotelOrTransport == IsHotelOrTransport(e.category)
  }

  /** Builds the record `addExpense` stores: participants copied, flag derived. */
  function MakeExpense(id: ExpenseId, description: string, amount: real, category: Category,
                       date: Date, paidBy: MemberId, participants: seq<MemberId>): (e: Expense)
    ensures e.id == id && e.description == description
    ensures FlagConsistent(e)
    ensures e.isHotelOrTransport <==> category == Hotel || category == Transport
    ensures e.amount == amount && e.category == category && e.date == date
    ensures e.paidBy == paidBy && e.participants == participants
  {
    Expense(id, description, amount, category, date, paidBy, participants,
            IsHotelOrTransport(category))
  }

  /** Per-member figures: what the member paid, the member's share of the
      expenses it took part in, and the difference (positive: is owed money). */
  datatype Balance = Balance(name: string, totalPaid: real, totalShare: real, final: real)

  /** A suggested payment from a debtor to a creditor. */
  datatype Settlement = Settlement(from: MemberId, to: MemberId, amount: real)

  /** The tolerance below which a balance or a transfer is treated as zero. */
  const Epsilon: real := 0.01

  /** The ids of the members, each once, in order of first appearance: the
      order in which the balance table's keys are enumerated. */
  function MemberIds(members: seq<Member>): (ids: seq<MemberId>)
    ensures Seqs.NoDuplicates(ids)
    ensures forall id :: id in ids <==> id in MemberIdSet(members)
  {
    var all := seq(|members|, k requires 0 <= k < |members| => members[k].id);
    assert forall id :: id in all <==> id in MemberIdSet(members) by {
      forall id | id in MemberIdSet(members) ensures id in all {
        var m :| m in members && m.id == id;
        var k :| 0 <= k < |members| && members[k] == m;
        assert all[k] == id;
      }
    }
    Seqs.Dedup(all)
  }

  function MemberIdSet(members: seq<Member>): set<MemberId>
  {
    set m | m in members :: m.id
  }
}
