/** The greedy settlement optimiser: members owed more than the tolerance
    become creditors, members owing more than it become debtors (recorded as
    positive magnitudes), both lists are sorted by amount, largest first, and a
    two-cursor walk pairs the current debtor with the current creditor, moving
    the smaller of the two outstanding amounts at each step. */
module Settlements {

  import opened Model
  import opened Seqs
  import Balances

  /** A creditor or debtor and the amount it still has to receive or pay. */
  datatype Party = Party(id: MemberId, amount: real)

  function PartyIds(ps: seq<Party>): set<MemberId> {
    set p | p in ps :: p.id
  }

  /** No member appears twice in the list: entries sharing an id are the
      same entry, and no entry is listed twice. Stated through membership and
      multiplicity, so that every permutation of the list keeps it. */
  ghost predicate DistinctIds(ps: seq<Party>) {
    && (forall p, q :: p in ps && q in ps && p.id == q.id ==> p == q)
    && (forall p :: multiset(ps)[p] <= 1)
  }

  lemma RepeatCounted(ps: seq<Party>, k: nat, l: nat)
    requires k < l < |ps|
    ensures ps[k] == ps[l] ==> multiset(ps)[ps[k]] >= 2
  {
    assert ps == ps[..l] + [ps[l]] + ps[l + 1..];
    assert ps[k] in ps[..l];
    assert multiset(ps) == multiset(ps[..l]) + multiset{ps[l]} + multiset(ps[l + 1..]);
  }

  /** Two positions of a list without repeated members hold different members. */
  lemma DistinctIdsAt(ps: seq<Party>, k: nat, l: nat)
    requires DistinctIds(ps)
    requires k < |ps| && l < |ps| && k != l
    ensures ps[k].id != ps[l].id
  {
    if k < l {
      RepeatCounted(ps, k, l);
    } else {
      RepeatCounted(ps, l, k);
    }
  }

  // ---------------------------------------------------------------------------
  // Partition
  // ---------------------------------------------------------------------------

  /** The members whose final balance exceeds the tolerance, in table order. */
  function Creditors(ids: seq<MemberId>, b: map<MemberId, Balance>): (cs: seq<Party>)
    requires forall id :: id in ids ==> id in b
    ensures forall p :: p in cs <==> p.id in ids && b[p.id].final > Epsilon && p.amount == b[p.id].final
    ensures NoDuplicates(ids) ==> DistinctIds(cs)
  {
    if ids == [] then []
    else
      var rest := Creditors(ids[1..], b);
      assert NoDuplicates(ids) ==> NoDuplicates(ids[1..]) && ids[0] !in ids[1..];
      if b[ids[0]].final > Epsilon then [Party(ids[0], b[ids[0]].final)] + rest else rest
  }

  /** The members whose final balance is below minus the tolerance, in table
      order, each with the magnitude of its debt. */
  function Debtors(ids: seq<MemberId>, b: map<MemberId, Balance>): (ds: seq<Party>)
    requires forall id :: id in ids ==> id in b
    ensures forall p :: p in ds <==> p.id in ids && b[p.id].final < -Epsilon && p.amount == -b[p.id].final
    ensures NoDuplicates(ids) ==> DistinctIds(ds)
  {
    if ids == [] then []
    else
      var rest := Debtors(ids[1..], b);
      assert NoDuplicates(ids) ==> NoDuplicates(ids[1..]) && ids[0] !in ids[1..];
      if b[ids[0]].final < -Epsilon then [Party(ids[0], -b[ids[0]].final)] + rest else rest
  }

  // ---------------------------------------------------------------------------
  // Sorting, largest amount first
  // ---------------------------------------------------------------------------

  /** Each entry is at least as large as the next. */
  ghost predicate SortedDescending(ps: seq<Party>) {
    forall k :: 0 < k < |ps| ==> ps[k - 1].amount >= ps[k].amount
  }

  /** Inserts `x` in front of the first entry not larger than it, so equal
      amounts keep their original relative order. */
  function Insert(x: Party, ps: seq<Party>): (r: seq<Party>)
    requires SortedDescending(ps)
    ensures SortedDescending(r)
    ensures multiset(r) == multiset(ps) + multiset{x}
    ensures r[0] == x || (ps != [] && r[0] == ps[0])
  {
    if ps == [] || x.amount >= ps[0].amount then [x] + ps
    else
      var tail := Insert(x, ps[1..]);
      assert ps == [ps[0]] + ps[1..];
      [ps[0]] + tail
  }

  /** A stable sort by amount, largest first: a permutation of its input. */
  function SortDescending(ps: seq<Party>): (r: seq<Party>)
    ensures SortedDescending(r)
    ensures multiset(r) == multiset(ps)
  {
    if ps == [] then []
    else
      assert ps == [ps[0]] + ps[1..];
      Insert(ps[0], SortDescending(ps[1..]))
  }

  /** A permutation of a list without repeated members has none either. */
  lemma PermutationDistinctIds(a: seq<Party>, b: seq<Party>)
    requires multiset(a) == multiset(b)
    requires DistinctIds(a)
    ensures DistinctIds(b)
  {
    assert forall p :: p in b <==> p in a by {
      forall p ensures p in b <==> p in a {
        assert p in b <==> p in multiset(b);
        assert p in a <==> p in multiset(a);
      }
    }
  }

  // ---------------------------------------------------------------------------
  // The two-cursor walk
  // ---------------------------------------------------------------------------

  function Min(a: real, b: real): real {
    if a <= b then a else b
  }

  /** What `id` pays across the settlements. */
  function Paid(ss: seq<Settlement>, id: MemberId): real {
    if ss == [] then 0.0
    else Paid(ss[..|ss| - 1], id) + (if ss[|ss| - 1].from == id then ss[|ss| - 1].amount else 0.0)
  }

  /** What `id` receives across the settlements. */
  function Received(ss: seq<Settlement>, id: MemberId): real {
    if ss == [] then 0.0
    else Received(ss[..|ss| - 1], id) + (if ss[|ss| - 1].to == id then ss[|ss| - 1].amount else 0.0)
  }

  lemma PaidSnoc(ss: seq<Settlement>, s: Settlement, id: MemberId)
    ensures Paid(ss + [s], id) == Paid(ss, id) + (if s.from == id then s.amount else 0.0)
  {
    assert (ss + [s])[..|ss|] == ss;
  }

  lemma ReceivedSnoc(ss: seq<Settlement>, s: Settlement, id: MemberId)
    ensures Received(ss + [s], id) == Received(ss, id) + (if s.to == id then s.amount else 0.0)
  {
    assert (ss + [s])[..|ss|] == ss;
  }

  function Total(ps: seq<Party>): real {
    if ps == [] then 0.0 else ps[0].amount + Total(ps[1..])
  }

  lemma {:induction false} TotalUpdate(ps: seq<Party>, k: nat, p: Party)
    requires k < |ps|
    ensures Total(ps[k := p]) == Total(ps) - ps[k].amount + p.amount
  {
    if k > 0 {
      assert ps[k := p][1..] == ps[1..][k - 1 := p];
      TotalUpdate(ps[1..], k - 1, p);
    }
  }

  // ---------------------------------------------------------------------------
  // The walk as a state machine
  // ---------------------------------------------------------------------------

  /** The walk's state: the creditor and debtor records with their outstanding
      amounts, the two cursors, the settlements emitted so far, and the log of
      every transfer made so far, emitted or not (the application keeps no
      such log; it records what the subtractions did). */
  datatype WalkState = WalkState(cr: seq<Party>, db: seq<Party>, i: nat, j: nat,
                                 out: seq<Settlement>, moved: seq<Settlement>)

  ghost predicate CursorsInRange(s: WalkState) {
    s.i <= |s.cr| && s.j <= |s.db|
  }

  /** One iteration: move the smaller of the two outstanding amounts from the
      debtor at `j` to the creditor at `i`, record it when it exceeds the
      tolerance, and advance each cursor whose party has less than the
      tolerance left. */
  function Step(s: WalkState): (t: WalkState)
    requires s.i < |s.cr| && s.j < |s.db|
    ensures |t.cr| == |s.cr| && |t.db| == |s.db|
    ensures s.i <= t.i <= s.i + 1 && s.j <= t.j <= s.j + 1
    ensures t.i + t.j > s.i + s.j
  {
    var credit, debt := s.cr[s.i], s.db[s.j];
    var amount := Min(credit.amount, debt.amount);
    var creditLeft, debtLeft := credit.amount - amount, debt.amount - amount;
    WalkState(
      s.cr[s.i := credit.(amount := creditLeft)],
      s.db[s.j := debt.(amount := debtLeft)],
      if creditLeft < Epsilon then s.i + 1 else s.i,
      if debtLeft < Epsilon then s.j + 1 else s.j,
      if amount > Epsilon then s.out + [Settlement(debt.id, credit.id, amount)] else s.out,
      s.moved + [Settlement(debt.id, credit.id, amount)])
  }

  /** Steps until one of the cursors has run off its list. */
  function Walk(s: WalkState): (t: WalkState)
    requires CursorsInRange(s)
    ensures CursorsInRange(t) && (t.i == |t.cr| || t.j == |t.db|)
    ensures |t.cr| == |s.cr| && |t.db| == |s.db|
    decreases |s.cr| - s.i + |s.db| - s.j
  {
    if s.i < |s.cr| && s.j < |s.db| then Walk(Step(s)) else s
  }

  // ---------------------------------------------------------------------------
  // Invariants of the walk, one lemma each
  // ---------------------------------------------------------------------------

  /** The state of one side of the walk. `left` lists the same parties as
      `initial`, each with an outstanding amount between zero and its initial
      amount; the entries before the cursor are exhausted (below the
      tolerance), the entry at the cursor still has at least the tolerance
      left, and the entries after it are untouched. */
  ghost predicate SideState(initial: seq<Party>, left: seq<Party>, cursor: int) {
    && |left| == |initial|
    && 0 <= cursor <= |left|
    && (forall k :: 0 <= k < |left| ==>
          left[k].id == initial[k].id && 0.0 <= left[k].amount <= initial[k].amount)
    && (forall k :: cursor < k < |left| ==> left[k] == initial[k])
    && (cursor < |left| ==> left[cursor].amount >= Epsilon)
    && (forall k :: 0 <= k < cursor ==> left[k].amount < Epsilon)
  }

  /** Taking `amount` from the party at the cursor, and moving the cursor on
      once that party has less than the tolerance left, keeps the side's state. */
  lemma SideStep(initial: seq<Party>, left: seq<Party>, cursor: nat, amount: real)
    requires forall p :: p in initial ==> p.amount > Epsilon
    requires SideState(initial, left, cursor) && cursor < |left|
    requires 0.0 <= amount <= left[cursor].amount
    ensures var rest := left[cursor].amount - amount;
      SideState(initial, left[cursor := left[cursor].(amount := rest)],
                if rest < Epsilon then cursor + 1 else cursor)
  {
    var rest := left[cursor].amount - amount;
    var left' := left[cursor := left[cursor].(amount := rest)];
    if rest < Epsilon && cursor + 1 < |left| {
      assert left'[cursor + 1] == initial[cursor + 1];
      assert initial[cursor + 1] in initial;
    }
  }

  ghost predicate Sides(creditors: seq<Party>, debtors: seq<Party>, s: WalkState) {
    SideState(creditors, s.cr, s.i) && SideState(debtors, s.db, s.j)
  }

  /** Both sides keep their state throughout the walk. */
  lemma {:induction false} WalkSides(creditors: seq<Party>, debtors: seq<Party>, s: WalkState)
    requires forall p :: p in creditors ==> p.amount > Epsilon
    requires forall p :: p in debtors ==> p.amount > Epsilon
    requires Sides(creditors, debtors, s)
    ensures CursorsInRange(s) && Sides(creditors, debtors, Walk(s))
    decreases |s.cr| - s.i + |s.db| - s.j
  {
    if s.i < |s.cr| && s.j < |s.db| {
      SidesStep(creditors, debtors, s);
      WalkSides(creditors, debtors, Step(s));
    }
  }

  /** One step keeps both sides' state. */
  lemma SidesStep(creditors: seq<Party>, debtors: seq<Party>, s: WalkState)
    requires forall p :: p in creditors ==> p.amount > Epsilon
    requires forall p :: p in debtors ==> p.amount > Epsilon
    requires Sides(creditors, debtors, s) && s.i < |s.cr| && s.j < |s.db|
    ensures Sides(creditors, debtors, Step(s))
  {
    var amount := Min(s.cr[s.i].amount, s.db[s.j].amount);
    SideStep(creditors, s.cr, s.i, amount);
    SideStep(debtors, s.db, s.j, amount);
  }

  /** Every settlement so far exceeds the tolerance and runs from a debtor to a creditor. */
  ghost predicate ValidSettlements(creditors: seq<Party>, debtors: seq<Party>, out: seq<Settlement>) {
    forall s :: s in out ==>
      s.amount > Epsilon && s.from in PartyIds(debtors) && s.to in PartyIds(creditors)
  }

  lemma {:induction false} WalkValid(creditors: seq<Party>, debtors: seq<Party>, s: WalkState)
    requires forall p :: p in creditors ==> p.amount > Epsilon
    requires forall p :: p in debtors ==> p.amount > Epsilon
    requires Sides(creditors, debtors, s)
    requires ValidSettlements(creditors, debtors, s.out)
    ensures CursorsInRange(s) && ValidSettlements(creditors, debtors, Walk(s).out)
    decreases |s.cr| - s.i + |s.db| - s.j
  {
    if s.i < |s.cr| && s.j < |s.db| {
      SidesStep(creditors, debtors, s);
      ValidStep(creditors, debtors, s);
      WalkValid(creditors, debtors, Step(s));
    }
  }

  /** A settlement added by one step runs from the debtor at the cursor to
      the creditor at the cursor. */
  lemma ValidStep(creditors: seq<Party>, debtors: seq<Party>, s: WalkState)
    requires Sides(creditors, debtors, s) && s.i < |s.cr| && s.j < |s.db|
    requires ValidSettlements(creditors, debtors, s.out)
    ensures ValidSettlements(creditors, debtors, Step(s).out)
  {
    assert creditors[s.i] in creditors && debtors[s.j] in debtors;
    assert s.cr[s.i].id in PartyIds(creditors) && s.db[s.j].id in PartyIds(debtors);
  }

  /** The count bound: never more settlements than cursor advances, and one
      fewer once both lists are used up (the last step advances both). */
  ghost predicate CountBound(s: WalkState) {
    && |s.out| <= s.i + s.j
    && (s.i == |s.cr| && s.j == |s.db| && s.out != [] ==> |s.out| <= s.i + s.j - 1)
  }

  lemma {:induction false} WalkCount(s: WalkState)
    requires CursorsInRange(s) && CountBound(s)
    ensures CountBound(Walk(s))
    ensures s.out == [] && (s.i == |s.cr| || s.j == |s.db|) ==> Walk(s).out == []
    decreases |s.cr| - s.i + |s.db| - s.j
  {
    if s.i < |s.cr| && s.j < |s.db| {
      WalkCount(Step(s));
    }
  }

  /** Every creditor has received at most what has been taken off its amount. */
  ghost predicate ReceivedWithin(ss: seq<Settlement>, initial: seq<Party>, left: seq<Party>) {
    |left| == |initial| &&
    forall k :: 0 <= k < |initial| ==> Received(ss, initial[k].id) <= initial[k].amount - left[k].amount
  }

  /** Every debtor has paid at most what has been taken off its amount. */
  ghost predicate PaidWithin(ss: seq<Settlement>, initial: seq<Party>, left: seq<Party>) {
    |left| == |initial| &&
    forall k :: 0 <= k < |initial| ==> Paid(ss, initial[k].id) <= initial[k].amount - left[k].amount
  }

  lemma ReceivedStep(ss: seq<Settlement>, ss': seq<Settlement>, initial: seq<Party>, left: seq<Party>,
                     c: nat, from: MemberId, amount: real)
    requires DistinctIds(initial)
    requires ReceivedWithin(ss, initial, left) && c < |left| && 0.0 <= amount
    requires ss' == ss || ss' == ss + [Settlement(from, initial[c].id, amount)]
    ensures ReceivedWithin(ss', initial, left[c := left[c].(amount := left[c].amount - amount)])
  {
    forall k | 0 <= k < |initial|
      ensures Received(ss', initial[k].id) <= Received(ss, initial[k].id) + (if k == c then amount else 0.0)
    {
      if ss' != ss {
        ReceivedSnoc(ss, Settlement(from, initial[c].id, amount), initial[k].id);
        if k != c {
          DistinctIdsAt(initial, k, c);
        }
      }
    }
  }

  lemma PaidStep(ss: seq<Settlement>, ss': seq<Settlement>, initial: seq<Party>, left: seq<Party>,
                 c: nat, to: MemberId, amount: real)
    requires DistinctIds(initial)
    requires PaidWithin(ss, initial, left) && c < |left| && 0.0 <= amount
    requires ss' == ss || ss' == ss + [Settlement(initial[c].id, to, amount)]
    ensures PaidWithin(ss', initial, left[c := left[c].(amount := left[c].amount - amount)])
  {
    forall k | 0 <= k < |initial|
      ensures Paid(ss', initial[k].id) <= Paid(ss, initial[k].id) + (if k == c then amount else 0.0)
    {
      if ss' != ss {
        PaidSnoc(ss, Settlement(initial[c].id, to, amount), initial[k].id);
        if k != c {
          DistinctIdsAt(initial, k, c);
        }
      }
    }
  }

  /** The same parties as `initial`, none with a negative amount left. */
  ghost predicate Shape(initial: seq<Party>, left: seq<Party>) {
    |left| == |initial| &&
    forall k :: 0 <= k < |left| ==> left[k].id == initial[k].id && 0.0 <= left[k].amount
  }

  lemma ShapeStep(initial: seq<Party>, left: seq<Party>, c: nat, amount: real)
    requires Shape(initial, left) && c < |left| && 0.0 <= amount <= left[c].amount
    ensures Shape(initial, left[c := left[c].(amount := left[c].amount - amount)])
  {
  }

  lemma {:induction false} WalkReceived(creditors: seq<Party>, debtors: seq<Party>, s: WalkState)
    requires DistinctIds(creditors)
    requires CursorsInRange(s) && Shape(creditors, s.cr) && Shape(debtors, s.db)
    requires ReceivedWithin(s.out, creditors, s.cr)
    ensures ReceivedWithin(Walk(s).out, creditors, Walk(s).cr)
    decreases |s.cr| - s.i + |s.db| - s.j
  {
    if s.i < |s.cr| && s.j < |s.db| {
      var amount := Min(s.cr[s.i].amount, s.db[s.j].amount);
      var t := Step(s);
      ReceivedStep(s.out, t.out, creditors, s.cr, s.i, s.db[s.j].id, amount);
      ShapeStep(creditors, s.cr, s.i, amount);
      ShapeStep(debtors, s.db, s.j, amount);
      WalkReceived(creditors, debtors, t);
    }
  }

  lemma {:induction false} WalkPaid(creditors: seq<Party>, debtors: seq<Party>, s: WalkState)
    requires DistinctIds(debtors)
    requires CursorsInRange(s) && Shape(creditors, s.cr) && Shape(debtors, s.db)
    requires PaidWithin(s.out, debtors, s.db)
    ensures PaidWithin(Walk(s).out, debtors, Walk(s).db)
    decreases |s.cr| - s.i + |s.db| - s.j
  {
    if s.i < |s.cr| && s.j < |s.db| {
      var amount := Min(s.cr[s.i].amount, s.db[s.j].amount);
      var t := Step(s);
      PaidStep(s.out, t.out, debtors, s.db, s.j, s.cr[s.i].id, amount);
      ShapeStep(creditors, s.cr, s.i, amount);
      ShapeStep(debtors, s.db, s.j, amount);
      WalkPaid(creditors, debtors, t);
    }
  }

  /** What has left the debtors equals what has reached the creditors. */
  lemma {:induction false} WalkTotals(creditors: seq<Party>, debtors: seq<Party>, s: WalkState)
    requires CursorsInRange(s)
    requires Total(creditors) - Total(s.cr) == Total(debtors) - Total(s.db)
    ensures Total(creditors) - Total(Walk(s).cr) == Total(debtors) - Total(Walk(s).db)
    decreases |s.cr| - s.i + |s.db| - s.j
  {
    if s.i < |s.cr| && s.j < |s.db| {
      var credit, debt := s.cr[s.i], s.db[s.j];
      var amount := Min(credit.amount, debt.amount);
      TotalUpdate(s.cr, s.i, credit.(amount := credit.amount - amount));
      TotalUpdate(s.db, s.j, debt.(amount := debt.amount - amount));
      WalkTotals(creditors, debtors, Step(s));
    }
  }

  // ---------------------------------------------------------------------------
  // Every transfer, emitted or not
  // ---------------------------------------------------------------------------

  /** A transfer is emitted as a payment when it exceeds the tolerance. */
  const Emitted: Settlement -> bool := (x: Settlement) => x.amount > Epsilon

  /** How many transfers to `id` were too small to emit. */
  function SilentTo(ss: seq<Settlement>, id: MemberId): nat {
    if ss == [] then 0
    else SilentTo(ss[..|ss| - 1], id)
         + (if ss[|ss| - 1].to == id && ss[|ss| - 1].amount <= Epsilon then 1 else 0)
  }

  /** How many transfers from `id` were too small to emit. */
  function SilentFrom(ss: seq<Settlement>, id: MemberId): nat {
    if ss == [] then 0
    else SilentFrom(ss[..|ss| - 1], id)
         + (if ss[|ss| - 1].from == id && ss[|ss| - 1].amount <= Epsilon then 1 else 0)
  }

  /** Every creditor's transfers add up exactly to what was taken off its credit. */
  ghost predicate ReceivedExactly(moved: seq<Settlement>, initial: seq<Party>, left: seq<Party>) {
    |left| == |initial| &&
    forall k :: 0 <= k < |initial| ==> Received(moved, initial[k].id) == initial[k].amount - left[k].amount
  }

  /** Every debtor's transfers add up exactly to what was taken off its debt. */
  ghost predicate PaidExactly(moved: seq<Settlement>, initial: seq<Party>, left: seq<Party>) {
    |left| == |initial| &&
    forall k :: 0 <= k < |initial| ==> Paid(moved, initial[k].id) == initial[k].amount - left[k].amount
  }

  lemma ReceivedExactlyStep(moved: seq<Settlement>, initial: seq<Party>, left: seq<Party>,
                            c: nat, from: MemberId, amount: real)
    requires DistinctIds(initial)
    requires ReceivedExactly(moved, initial, left) && c < |left|
    ensures ReceivedExactly(moved + [Settlement(from, initial[c].id, amount)], initial,
                            left[c := left[c].(amount := left[c].amount - amount)])
  {
    var x := Settlement(from, initial[c].id, amount);
    forall k | 0 <= k < |initial|
      ensures Received(moved + [x], initial[k].id) == Received(moved, initial[k].id) + (if k == c then amount else 0.0)
    {
      ReceivedSnoc(moved, x, initial[k].id);
      if k != c {
        DistinctIdsAt(initial, k, c);
      }
    }
  }

  lemma PaidExactlyStep(moved: seq<Settlement>, initial: seq<Party>, left: seq<Party>,
                        c: nat, to: MemberId, amount: real)
    requires DistinctIds(initial)
    requires PaidExactly(moved, initial, left) && c < |left|
    ensures PaidExactly(moved + [Settlement(initial[c].id, to, amount)], initial,
                        left[c := left[c].(amount := left[c].amount - amount)])
  {
    var x := Settlement(initial[c].id, to, amount);
    forall k | 0 <= k < |initial|
      ensures Paid(moved + [x], initial[k].id) == Paid(moved, initial[k].id) + (if k == c then amount else 0.0)
    {
      PaidSnoc(moved, x, initial[k].id);
      if k != c {
        DistinctIdsAt(initial, k, c);
      }
    }
  }

  /** The transfer log accounts exactly for what the walk takes off the creditors. */
  lemma {:induction false} WalkReceivedExactly(creditors: seq<Party>, debtors: seq<Party>, s: WalkState)
    requires DistinctIds(creditors)
    requires CursorsInRange(s) && Shape(creditors, s.cr) && Shape(debtors, s.db)
    requires ReceivedExactly(s.moved, creditors, s.cr)
    ensures ReceivedExactly(Walk(s).moved, creditors, Walk(s).cr)
    decreases |s.cr| - s.i + |s.db| - s.j
  {
    if s.i < |s.cr| && s.j < |s.db| {
      var amount := Min(s.cr[s.i].amount, s.db[s.j].amount);
      assert s.cr[s.i].id == creditors[s.i].id;
      ReceivedExactlyStep(s.moved, creditors, s.cr, s.i, s.db[s.j].id, amount);
      ShapeStep(creditors, s.cr, s.i, amount);
      ShapeStep(debtors, s.db, s.j, amount);
      WalkReceivedExactly(creditors, debtors, Step(s));
    }
  }

  /** The transfer log accounts exactly for what the walk takes off the debtors. */
  lemma {:induction false} WalkPaidExactly(creditors: seq<Party>, debtors: seq<Party>, s: WalkState)
    requires DistinctIds(debtors)
    requires CursorsInRange(s) && Shape(creditors, s.cr) && Shape(debtors, s.db)
    requires PaidExactly(s.moved, debtors, s.db)
    ensures PaidExactly(Walk(s).moved, debtors, Walk(s).db)
    decreases |s.cr| - s.i + |s.db| - s.j
  {
    if s.i < |s.cr| && s.j < |s.db| {
      var amount := Min(s.cr[s.i].amount, s.db[s.j].amount);
      assert s.db[s.j].id == debtors[s.j].id;
      PaidExactlyStep(s.moved, debtors, s.db, s.j, s.cr[s.i].id, amount);
      ShapeStep(creditors, s.cr, s.i, amount);
      ShapeStep(debtors, s.db, s.j, amount);
      WalkPaidExactly(creditors, debtors, Step(s));
    }
  }

  /** The emitted payments are the logged transfers above the tolerance, in order. */
  lemma {:induction false} WalkEmits(s: WalkState)
    requires CursorsInRange(s) && s.out == Filter(s.moved, Emitted)
    ensures Walk(s).out == Filter(Walk(s).moved, Emitted)
    decreases |s.cr| - s.i + |s.db| - s.j
  {
    if s.i < |s.cr| && s.j < |s.db| {
      var amount := Min(s.cr[s.i].amount, s.db[s.j].amount);
      FilterSnoc(s.moved, Settlement(s.db[s.j].id, s.cr[s.i].id, amount), Emitted);
      WalkEmits(Step(s));
    }
  }

  /** No transfer is below the tolerance: both parties at the cursors still
      have at least the tolerance outstanding. */
  lemma {:induction false} WalkFloor(creditors: seq<Party>, debtors: seq<Party>, s: WalkState)
    requires forall p :: p in creditors ==> p.amount > Epsilon
    requires forall p :: p in debtors ==> p.amount > Epsilon
    requires Sides(creditors, debtors, s)
    requires forall x :: x in s.moved ==> x.amount >= Epsilon
    ensures forall x :: x in Walk(s).moved ==> x.amount >= Epsilon
    decreases |s.cr| - s.i + |s.db| - s.j
  {
    if s.i < |s.cr| && s.j < |s.db| {
      SidesStep(creditors, debtors, s);
      assert s.cr[s.i].amount >= Epsilon && s.db[s.j].amount >= Epsilon;
      WalkFloor(creditors, debtors, Step(s));
    }
  }

  lemma SilentStep(n: nat)
    ensures ((n + 1) as real) * Epsilon == (n as real) * Epsilon + Epsilon
  {
  }

  /** With no transfer below the tolerance, what reaches `id` is what the
      emitted payments bring plus exactly the tolerance per silent transfer. */
  lemma {:induction false} ReceivedSplit(ss: seq<Settlement>, id: MemberId)
    requires forall x :: x in ss ==> x.amount >= Epsilon
    ensures Received(ss, id) == Received(Filter(ss, Emitted), id) + (SilentTo(ss, id) as real) * Epsilon
  {
    if ss != [] {
      var init, x := ss[..|ss| - 1], ss[|ss| - 1];
      assert ss == init + [x];
      assert x in ss;
      assert forall y :: y in init ==> y in ss;
      ReceivedSplit(init, id);
      FilterSnoc(init, x, Emitted);
      assert Received(ss, id) == Received(init, id) + (if x.to == id then x.amount else 0.0);
      assert SilentTo(ss, id) == SilentTo(init, id) + (if x.to == id && x.amount <= Epsilon then 1 else 0);
      var n := SilentTo(init, id);
      if x.amount > Epsilon {
        ReceivedSnoc(Filter(init, Emitted), x, id);
      } else {
        assert Filter(init, Emitted) + [] == Filter(init, Emitted);
        if x.to == id {
          assert x.amount == Epsilon;
          SilentStep(n);
        }
      }
    }
  }

  /** With no transfer below the tolerance, what leaves `id` is what the
      emitted payments take plus exactly the tolerance per silent transfer. */
  lemma {:induction false} PaidSplit(ss: seq<Settlement>, id: MemberId)
    requires forall x :: x in ss ==> x.amount >= Epsilon
    ensures Paid(ss, id) == Paid(Filter(ss, Emitted), id) + (SilentFrom(ss, id) as real) * Epsilon
  {
    if ss != [] {
      var init, x := ss[..|ss| - 1], ss[|ss| - 1];
      assert ss == init + [x];
      assert x in ss;
      assert forall y :: y in init ==> y in ss;
      PaidSplit(init, id);
      FilterSnoc(init, x, Emitted);
      assert Paid(ss, id) == Paid(init, id) + (if x.from == id then x.amount else 0.0);
      assert SilentFrom(ss, id) == SilentFrom(init, id) + (if x.from == id && x.amount <= Epsilon then 1 else 0);
      var n := SilentFrom(init, id);
      if x.amount > Epsilon {
        PaidSnoc(Filter(init, Emitted), x, id);
      } else {
        assert Filter(init, Emitted) + [] == Filter(init, Emitted);
        if x.from == id {
          assert x.amount == Epsilon;
          SilentStep(n);
        }
      }
    }
  }

  // ---------------------------------------------------------------------------
  // The walk from the start
  // ---------------------------------------------------------------------------

  /** The walk over creditors and debtors (each with an outstanding amount
      above the tolerance and no member listed twice, as the partition
      produces them), from both cursors at zero and no settlements. The result
      holds the emitted settlements and the two lists with the amounts left. */
  function Settle(creditors: seq<Party>, debtors: seq<Party>): (r: WalkState)
    requires forall p :: p in creditors ==> p.amount > Epsilon
    requires forall p :: p in debtors ==> p.amount > Epsilon
    requires DistinctIds(creditors) && DistinctIds(debtors)
    // every settlement is a payment above the tolerance from a debtor to a creditor
    ensures forall s :: s in r.out ==>
      s.amount > Epsilon && s.from in PartyIds(debtors) && s.to in PartyIds(creditors)
    // count bound: each step exhausts at least one party
    ensures |creditors| == 0 || |debtors| == 0 ==> r.out == []
    ensures |creditors| > 0 && |debtors| > 0 ==> |r.out| <= |creditors| + |debtors| - 1
    // the records left over: same parties, amounts between zero and the initial amount
    ensures |r.cr| == |creditors| && |r.db| == |debtors|
    ensures forall k :: 0 <= k < |creditors| ==>
      r.cr[k].id == creditors[k].id && 0.0 <= r.cr[k].amount <= creditors[k].amount
    ensures forall k :: 0 <= k < |debtors| ==>
      r.db[k].id == debtors[k].id && 0.0 <= r.db[k].amount <= debtors[k].amount
  {
    var s0 := WalkState(creditors, debtors, 0, 0, [], []);
    WalkSides(creditors, debtors, s0);
    WalkValid(creditors, debtors, s0);
    WalkCount(s0);
    Walk(s0)
  }

  /** Nobody receives more than was taken off its credit, or pays more than
      was taken off its debt. */
  lemma SettleWithin(creditors: seq<Party>, debtors: seq<Party>)
    requires forall p :: p in creditors ==> p.amount > Epsilon
    requires forall p :: p in debtors ==> p.amount > Epsilon
    requires DistinctIds(creditors) && DistinctIds(debtors)
    ensures var r := Settle(creditors, debtors);
      forall k :: 0 <= k < |creditors| ==>
        Received(r.out, creditors[k].id) <= creditors[k].amount - r.cr[k].amount
    ensures var r := Settle(creditors, debtors);
      forall k :: 0 <= k < |debtors| ==>
        Paid(r.out, debtors[k].id) <= debtors[k].amount - r.db[k].amount
  {
    var s0 := WalkState(creditors, debtors, 0, 0, [], []);
    WalkReceived(creditors, debtors, s0);
    WalkPaid(creditors, debtors, s0);
  }

  /** The walk stops only once every creditor or every debtor has less than
      the tolerance left. */
  lemma SettleStops(creditors: seq<Party>, debtors: seq<Party>)
    requires forall p :: p in creditors ==> p.amount > Epsilon
    requires forall p :: p in debtors ==> p.amount > Epsilon
    requires DistinctIds(creditors) && DistinctIds(debtors)
    ensures var r := Settle(creditors, debtors);
      (forall k :: 0 <= k < |r.cr| ==> r.cr[k].amount < Epsilon)
      || (forall k :: 0 <= k < |r.db| ==> r.db[k].amount < Epsilon)
  {
    WalkSides(creditors, debtors, WalkState(creditors, debtors, 0, 0, [], []));
  }

  /** What leaves the debtors is what reaches the creditors. */
  lemma SettleConserves(creditors: seq<Party>, debtors: seq<Party>)
    requires forall p :: p in creditors ==> p.amount > Epsilon
    requires forall p :: p in debtors ==> p.amount > Epsilon
    requires DistinctIds(creditors) && DistinctIds(debtors)
    ensures var r := Settle(creditors, debtors);
      Total(creditors) - Total(r.cr) == Total(debtors) - Total(r.db)
  {
    WalkTotals(creditors, debtors, WalkState(creditors, debtors, 0, 0, [], []));
  }

  /** The payments are exactly the transfers above the tolerance, in the
      order made; every transfer is at least the tolerance, so a transfer
      that is not emitted is exactly the tolerance. */
  lemma SettleEmits(creditors: seq<Party>, debtors: seq<Party>)
    requires forall p :: p in creditors ==> p.amount > Epsilon
    requires forall p :: p in debtors ==> p.amount > Epsilon
    requires DistinctIds(creditors) && DistinctIds(debtors)
    ensures var r := Settle(creditors, debtors);
      r.out == Filter(r.moved, Emitted)
    ensures var r := Settle(creditors, debtors);
      forall x :: x in r.moved ==> x.amount > Epsilon || x.amount == Epsilon
  {
    var s0 := WalkState(creditors, debtors, 0, 0, [], []);
    WalkEmits(s0);
    WalkFloor(creditors, debtors, s0);
  }

  /** The payments account for everything taken off each creditor, except
      for transfers of exactly the tolerance, which are subtracted but not
      emitted: a creditor receives its initial credit minus what is left, less
      0.01 per silent transfer. */
  lemma SettleReceivedAccounts(creditors: seq<Party>, debtors: seq<Party>)
    requires forall p :: p in creditors ==> p.amount > Epsilon
    requires forall p :: p in debtors ==> p.amount > Epsilon
    requires DistinctIds(creditors) && DistinctIds(debtors)
    ensures var r := Settle(creditors, debtors);
      forall k :: 0 <= k < |creditors| ==>
        Received(r.out, creditors[k].id) + (SilentTo(r.moved, creditors[k].id) as real) * Epsilon
          == creditors[k].amount - r.cr[k].amount
  {
    var s0 := WalkState(creditors, debtors, 0, 0, [], []);
    var r := Settle(creditors, debtors);
    WalkReceivedExactly(creditors, debtors, s0);
    SettleEmits(creditors, debtors);
    forall k | 0 <= k < |creditors|
      ensures Received(r.out, creditors[k].id) + (SilentTo(r.moved, creditors[k].id) as real) * Epsilon
          == creditors[k].amount - r.cr[k].amount
    {
      ReceivedSplit(r.moved, creditors[k].id);
    }
  }

  /** Likewise, a debtor pays its initial debt minus what is left, less 0.01
      per silent transfer. */
  lemma SettlePaidAccounts(creditors: seq<Party>, debtors: seq<Party>)
    requires forall p :: p in creditors ==> p.amount > Epsilon
    requires forall p :: p in debtors ==> p.amount > Epsilon
    requires DistinctIds(creditors) && DistinctIds(debtors)
    ensures var r := Settle(creditors, debtors);
      forall k :: 0 <= k < |debtors| ==>
        Paid(r.out, debtors[k].id) + (SilentFrom(r.moved, debtors[k].id) as real) * Epsilon
          == debtors[k].amount - r.db[k].amount
  {
    var s0 := WalkState(creditors, debtors, 0, 0, [], []);
    var r := Settle(creditors, debtors);
    WalkPaidExactly(creditors, debtors, s0);
    SettleEmits(creditors, debtors);
    forall k | 0 <= k < |debtors|
      ensures Paid(r.out, debtors[k].id) + (SilentFrom(r.moved, debtors[k].id) as real) * Epsilon
          == debtors[k].amount - r.db[k].amount
    {
      PaidSplit(r.moved, debtors[k].id);
    }
  }

  /** One creditor owed 50 and one debtor owing 50: a single payment of 50. */
  lemma SettleTwo()
    ensures Settle([Party("A", 50.0)], [Party("B", 50.0)]).out == [Settlement("B", "A", 50.0)]
  {
    var s0 := WalkState([Party("A", 50.0)], [Party("B", 50.0)], 0, 0, [], []);
    var s1 := Step(s0);
    assert s1.i == 1 && s1.j == 1;
    assert Walk(s1) == s1;
  }

  /** A permutation has the same elements and the same length. */
  lemma PermutationMembers(a: seq<Party>, b: seq<Party>)
    requires multiset(a) == multiset(b)
    ensures |a| == |b|
    ensures forall p :: p in a <==> p in b
  {
    assert |a| == |multiset(a)| == |multiset(b)| == |b|;
    forall p ensures p in a <==> p in b {
      assert p in a <==> p in multiset(a);
      assert p in b <==> p in multiset(b);
    }
  }

  /** The sorted creditor list holds exactly the members owed more than the
      tolerance, each once, with its final balance. */
  lemma SortedCreditors(ids: seq<MemberId>, b: map<MemberId, Balance>)
    requires forall id :: id in ids ==> id in b
    requires NoDuplicates(ids)
    ensures var cs := SortDescending(Creditors(ids, b));
      && DistinctIds(cs) && |cs| == |Creditors(ids, b)|
      && (forall p :: p in cs ==> p.amount > Epsilon)
      && (forall id :: id in PartyIds(cs) ==> id in b && b[id].final > Epsilon)
      && (forall id :: id in ids && b[id].final > Epsilon ==> Party(id, b[id].final) in cs)
  {
    var cs0 := Creditors(ids, b);
    var cs := SortDescending(cs0);
    PermutationDistinctIds(cs0, cs);
    PermutationMembers(cs0, cs);
  }

  /** The sorted debtor list holds exactly the members owing more than the
      tolerance, each once, with the magnitude of its debt. */
  lemma SortedDebtors(ids: seq<MemberId>, b: map<MemberId, Balance>)
    requires forall id :: id in ids ==> id in b
    requires NoDuplicates(ids)
    ensures var ds := SortDescending(Debtors(ids, b));
      && DistinctIds(ds) && |ds| == |Debtors(ids, b)|
      && (forall p :: p in ds ==> p.amount > Epsilon)
      && (forall id :: id in PartyIds(ds) ==> id in b && b[id].final < -Epsilon)
      && (forall id :: id in ids && b[id].final < -Epsilon ==> Party(id, -b[id].final) in ds)
  {
    var ds0 := Debtors(ids, b);
    var ds := SortDescending(ds0);
    PermutationDistinctIds(ds0, ds);
    PermutationMembers(ds0, ds);
  }

  /** No debtor pays more than its initial debt, as no debt goes below zero. */
  lemma PaidUpToDebt(debtors: seq<Party>, left: seq<Party>, ss: seq<Settlement>)
    requires |left| == |debtors|
    requires forall k :: 0 <= k < |debtors| ==> 0.0 <= left[k].amount
    requires forall k :: 0 <= k < |debtors| ==> Paid(ss, debtors[k].id) <= debtors[k].amount - left[k].amount
    ensures forall p :: p in debtors ==> Paid(ss, p.id) <= p.amount
  {
    forall p | p in debtors ensures Paid(ss, p.id) <= p.amount {
      var k :| 0 <= k < |debtors| && debtors[k] == p;
    }
  }

  /** No creditor receives more than its initial credit, as no credit goes below zero. */
  lemma ReceivedUpToCredit(creditors: seq<Party>, left: seq<Party>, ss: seq<Settlement>)
    requires |left| == |creditors|
    requires forall k :: 0 <= k < |creditors| ==> 0.0 <= left[k].amount
    requires forall k :: 0 <= k < |creditors| ==> Received(ss, creditors[k].id) <= creditors[k].amount - left[k].amount
    ensures forall p :: p in creditors ==> Received(ss, p.id) <= p.amount
  {
    forall p | p in creditors ensures Received(ss, p.id) <= p.amount {
      var k :| 0 <= k < |creditors| && creditors[k] == p;
    }
  }

  /** The walk over the balance table `b`, whose members are enumerated in
      the order `ids`: partition, sort both sides, settle. */
  function Plan(ids: seq<MemberId>, b: map<MemberId, Balance>): (r: WalkState)
    requires forall id :: id in ids ==> id in b
    requires NoDuplicates(ids)
    ensures |r.cr| == |Creditors(ids, b)| && |r.db| == |Debtors(ids, b)|
  {
    SortedCreditors(ids, b);
    SortedDebtors(ids, b);
    Settle(SortDescending(Creditors(ids, b)), SortDescending(Debtors(ids, b)))
  }

  /** Every planned payment exceeds the tolerance and runs from a member in
      debt beyond the tolerance to a member owed more than it. */
  lemma PlanValid(ids: seq<MemberId>, b: map<MemberId, Balance>)
    requires forall id :: id in ids ==> id in b
    requires NoDuplicates(ids)
    ensures forall s :: s in Plan(ids, b).out ==>
      && s.amount > Epsilon
      && s.from in b && b[s.from].final < -Epsilon
      && s.to in b && b[s.to].final > Epsilon
  {
    SortedCreditors(ids, b);
    SortedDebtors(ids, b);
  }

  /** No member pays more than it owes. */
  lemma PlanPaid(ids: seq<MemberId>, b: map<MemberId, Balance>)
    requires forall id :: id in ids ==> id in b
    requires NoDuplicates(ids)
    ensures forall id :: id in ids && b[id].final < -Epsilon ==> Paid(Plan(ids, b).out, id) <= -b[id].final
  {
    SortedDebtors(ids, b);
    SortedCreditors(ids, b);
    var r := Plan(ids, b);
    SettleWithin(SortDescending(Creditors(ids, b)), SortDescending(Debtors(ids, b)));
    PaidUpToDebt(SortDescending(Debtors(ids, b)), r.db, r.out);
  }

  /** No member receives more than it is owed. */
  lemma PlanReceived(ids: seq<MemberId>, b: map<MemberId, Balance>)
    requires forall id :: id in ids ==> id in b
    requires NoDuplicates(ids)
    ensures forall id :: id in ids && b[id].final > Epsilon ==> Received(Plan(ids, b).out, id) <= b[id].final
  {
    SortedDebtors(ids, b);
    SortedCreditors(ids, b);
    var r := Plan(ids, b);
    SettleWithin(SortDescending(Creditors(ids, b)), SortDescending(Debtors(ids, b)));
    ReceivedUpToCredit(SortDescending(Creditors(ids, b)), r.cr, r.out);
  }

  /** At most one payment fewer than there are creditors and debtors together. */
  lemma PlanCount(ids: seq<MemberId>, b: map<MemberId, Balance>)
    requires forall id :: id in ids ==> id in b
    requires NoDuplicates(ids)
    ensures var nc, nd := |Creditors(ids, b)|, |Debtors(ids, b)|;
      (nc == 0 || nd == 0 ==> Plan(ids, b).out == [])
      && (nc > 0 && nd > 0 ==> |Plan(ids, b).out| <= nc + nd - 1)
  {
    SortedDebtors(ids, b);
    SortedCreditors(ids, b);
  }

  /** The sorted lists of the table meet what the walk needs. */
  lemma SortedReady(ids: seq<MemberId>, b: map<MemberId, Balance>)
    requires forall id :: id in ids ==> id in b
    requires NoDuplicates(ids)
    ensures var cs, ds := SortDescending(Creditors(ids, b)), SortDescending(Debtors(ids, b));
      && (forall p :: p in cs ==> p.amount > Epsilon) && (forall p :: p in ds ==> p.amount > Epsilon)
      && DistinctIds(cs) && DistinctIds(ds)
  {
    SortedCreditors(ids, b);
    SortedDebtors(ids, b);
  }

  /** Where a creditor stands in the sorted creditor list. */
  lemma CreditorAt(ids: seq<MemberId>, b: map<MemberId, Balance>, id: MemberId) returns (k: nat)
    requires forall id :: id in ids ==> id in b
    requires NoDuplicates(ids)
    requires id in ids && b[id].final > Epsilon
    ensures var cs := SortDescending(Creditors(ids, b));
      k < |cs| && cs[k] == Party(id, b[id].final)
  {
    SortedCreditors(ids, b);
    var cs := SortDescending(Creditors(ids, b));
    k :| 0 <= k < |cs| && cs[k] == Party(id, b[id].final);
  }

  /** Where a debtor stands in the sorted debtor list. */
  lemma DebtorAt(ids: seq<MemberId>, b: map<MemberId, Balance>, id: MemberId) returns (k: nat)
    requires forall id :: id in ids ==> id in b
    requires NoDuplicates(ids)
    requires id in ids && b[id].final < -Epsilon
    ensures var ds := SortDescending(Debtors(ids, b));
      k < |ds| && ds[k] == Party(id, -b[id].final)
  {
    SortedDebtors(ids, b);
    var ds := SortDescending(Debtors(ids, b));
    k :| 0 <= k < |ds| && ds[k] == Party(id, -b[id].final);
  }

  /** What a creditor is still owed after the walk: its balance minus what
      the payments bring it and the silent transfers of 0.01 it received. */
  function CreditLeft(r: WalkState, b: map<MemberId, Balance>, id: MemberId): real
    requires id in b
  {
    b[id].final - Received(r.out, id) - (SilentTo(r.moved, id) as real) * Epsilon
  }

  /** What a debtor still owes after the walk: its debt minus what its
      payments take and the silent transfers of 0.01 it made. */
  function DebtLeft(r: WalkState, b: map<MemberId, Balance>, id: MemberId): real
    requires id in b
  {
    -b[id].final - Paid(r.out, id) - (SilentFrom(r.moved, id) as real) * Epsilon
  }

  /** A creditor's standing after the walk is the amount left on its record. */
  lemma CreditLeftAt(ids: seq<MemberId>, b: map<MemberId, Balance>, id: MemberId) returns (k: nat)
    requires forall id :: id in ids ==> id in b
    requires NoDuplicates(ids)
    requires id in ids && b[id].final > Epsilon
    ensures var r := Plan(ids, b);
      k < |r.cr| && CreditLeft(r, b, id) == r.cr[k].amount && 0.0 <= r.cr[k].amount <= b[id].final
  {
    k := CreditorAt(ids, b, id);
    SortedReady(ids, b);
    var cs, ds := SortDescending(Creditors(ids, b)), SortDescending(Debtors(ids, b));
    var r := Settle(cs, ds);
    assert Plan(ids, b) == r;
    SettleReceivedAccounts(cs, ds);
    var ps := cs;
    assert ps[k].id == id && ps[k].amount == b[id].final;
    assert Received(r.out, id) + (SilentTo(r.moved, id) as real) * Epsilon == ps[k].amount - r.cr[k].amount;
  }

  /** A debtor's standing after the walk is the amount left on its record. */
  lemma DebtLeftAt(ids: seq<MemberId>, b: map<MemberId, Balance>, id: MemberId) returns (k: nat)
    requires forall id :: id in ids ==> id in b
    requires NoDuplicates(ids)
    requires id in ids && b[id].final < -Epsilon
    ensures var r := Plan(ids, b);
      k < |r.db| && DebtLeft(r, b, id) == r.db[k].amount && 0.0 <= r.db[k].amount <= -b[id].final
  {
    k := DebtorAt(ids, b, id);
    SortedReady(ids, b);
    var cs, ds := SortDescending(Creditors(ids, b)), SortDescending(Debtors(ids, b));
    var r := Settle(cs, ds);
    assert Plan(ids, b) == r;
    SettlePaidAccounts(cs, ds);
    var ps := ds;
    assert ps[k].id == id && ps[k].amount == -b[id].final;
    assert Paid(r.out, id) + (SilentFrom(r.moved, id) as real) * Epsilon == ps[k].amount - r.db[k].amount;
  }

  /** Every creditor ends with between nothing and all of its credit still owed. */
  lemma PlanCreditLeft(ids: seq<MemberId>, b: map<MemberId, Balance>)
    requires forall id :: id in ids ==> id in b
    requires NoDuplicates(ids)
    ensures forall id :: id in ids && b[id].final > Epsilon ==>
      0.0 <= CreditLeft(Plan(ids, b), b, id) <= b[id].final
  {
    forall id | id in ids && b[id].final > Epsilon
      ensures 0.0 <= CreditLeft(Plan(ids, b), b, id) <= b[id].final
    {
      var k := CreditLeftAt(ids, b, id);
    }
  }

  /** Every debtor ends with between nothing and all of its debt still owed. */
  lemma PlanDebtLeft(ids: seq<MemberId>, b: map<MemberId, Balance>)
    requires forall id :: id in ids ==> id in b
    requires NoDuplicates(ids)
    ensures forall id :: id in ids && b[id].final < -Epsilon ==>
      0.0 <= DebtLeft(Plan(ids, b), b, id) <= -b[id].final
  {
    forall id | id in ids && b[id].final < -Epsilon
      ensures 0.0 <= DebtLeft(Plan(ids, b), b, id) <= -b[id].final
    {
      var k := DebtLeftAt(ids, b, id);
    }
  }

  /** The walk over the table stops once one side's records are all below the tolerance. */
  lemma PlanStops(ids: seq<MemberId>, b: map<MemberId, Balance>)
    requires forall id :: id in ids ==> id in b
    requires NoDuplicates(ids)
    ensures var r := Plan(ids, b);
      (forall k :: 0 <= k < |r.cr| ==> r.cr[k].amount < Epsilon)
      || (forall k :: 0 <= k < |r.db| ==> r.db[k].amount < Epsilon)
  {
    SortedReady(ids, b);
    SettleStops(SortDescending(Creditors(ids, b)), SortDescending(Debtors(ids, b)));
  }

  /** When the walk ends, every creditor or every debtor is settled to within
      the tolerance. */
  lemma PlanSettles(ids: seq<MemberId>, b: map<MemberId, Balance>)
    requires forall id :: id in ids ==> id in b
    requires NoDuplicates(ids)
    ensures || (forall id :: id in ids && b[id].final > Epsilon ==> CreditLeft(Plan(ids, b), b, id) < Epsilon)
            || (forall id :: id in ids && b[id].final < -Epsilon ==> DebtLeft(Plan(ids, b), b, id) < Epsilon)
  {
    var r := Plan(ids, b);
    PlanStops(ids, b);
    if forall k :: 0 <= k < |r.cr| ==> r.cr[k].amount < Epsilon {
      forall id | id in ids && b[id].final > Epsilon ensures CreditLeft(r, b, id) < Epsilon {
        var k := CreditLeftAt(ids, b, id);
      }
    } else {
      forall id | id in ids && b[id].final < -Epsilon ensures DebtLeft(r, b, id) < Epsilon {
        var k := DebtLeftAt(ids, b, id);
      }
    }
  }

  /** The settlement suggestions for a tour: partition the balance table,
      sort both sides, walk them. Every payment flows from a member whose
      final is below minus the tolerance to one whose final is above it, and
      no member pays more than it owes or receives more than it is owed. */
  function CalculateSettlements(members: seq<Member>, expenses: seq<Expense>): (settlements: seq<Settlement>)
    ensures var b := Balances.CalculateBalances(members, expenses);
      forall s :: s in settlements ==>
        && s.amount > Epsilon
        && s.from in b && b[s.from].final < -Epsilon
        && s.to in b && b[s.to].final > Epsilon
    ensures var b := Balances.CalculateBalances(members, expenses);
      forall id :: id in b && b[id].final < -Epsilon ==> Paid(settlements, id) <= -b[id].final
    ensures var b := Balances.CalculateBalances(members, expenses);
      forall id :: id in b && b[id].final > Epsilon ==> Received(settlements, id) <= b[id].final
    ensures var b := Balances.CalculateBalances(members, expenses);
      var ids := MemberIds(members);
      var nc, nd := |Creditors(ids, b)|, |Debtors(ids, b)|;
      (nc == 0 || nd == 0 ==> settlements == []) && (nc > 0 && nd > 0 ==> |settlements| <= nc + nd - 1)
  {
    var b := Balances.CalculateBalances(members, expenses);
    var ids := MemberIds(members);
    PlanValid(ids, b);
    PlanPaid(ids, b);
    PlanReceived(ids, b);
    PlanCount(ids, b);
    Plan(ids, b).out
  }

  /** The suggestions settle the tour as far as the walk goes. Each member's
      suggested payments, plus the silent transfers of 0.01, take between
      nothing and all of its balance off it. Afterwards every creditor, or
      every debtor, is left with less than the tolerance. */
  lemma SettlementsSettle(members: seq<Member>, expenses: seq<Expense>)
    ensures var b := Balances.CalculateBalances(members, expenses);
      var r := Plan(MemberIds(members), b);
      && CalculateSettlements(members, expenses) == r.out
      && (forall id :: id in b && b[id].final > Epsilon ==> 0.0 <= CreditLeft(r, b, id) <= b[id].final)
      && (forall id :: id in b && b[id].final < -Epsilon ==> 0.0 <= DebtLeft(r, b, id) <= -b[id].final)
      && (|| (forall id :: id in b && b[id].final > Epsilon ==> CreditLeft(r, b, id) < Epsilon)
          || (forall id :: id in b && b[id].final < -Epsilon ==> DebtLeft(r, b, id) < Epsilon))
  {
    var b := Balances.CalculateBalances(members, expenses);
    var ids := MemberIds(members);
    assert forall id :: id in b <==> id in ids;
    PlanCreditLeft(ids, b);
    PlanDebtLeft(ids, b);
    PlanSettles(ids, b);
  }

  /** The tolerance applies to each side separately, so settling does not
      always bring every balance within it: in the example the payer is owed
      0.018, but neither of the others owes more than the tolerance, nobody
      counts as a debtor, and no payment is suggested. */
  lemma SmallDebtsLeaveCreditUnsettled()
    ensures Balances.CalculateBalances(Balances.ExampleMembers(), Balances.ExampleExpenses())["a"].final > Epsilon
    ensures CalculateSettlements(Balances.ExampleMembers(), Balances.ExampleExpenses()) == []
  {
    Balances.ExampleBalances();
    var b := Balances.CalculateBalances(Balances.ExampleMembers(), Balances.ExampleExpenses());
    ExampleNothingOwed(b);
    NothingOwedNoSettlements(Balances.ExampleMembers(), Balances.ExampleExpenses());
  }

  lemma ExampleNothingOwed(b: map<MemberId, Balance>)
    requires b.Keys == {"a", "b", "c"}
    requires b["a"].final == 0.018 && b["b"].final == -0.009 && b["c"].final == -0.009
    ensures forall id :: id in b ==> b[id].final >= -Epsilon
  {
  }

  /** When nobody owes more than the tolerance, no payment is suggested, even
      if some members are still owed money. */
  lemma NothingOwedNoSettlements(members: seq<Member>, expenses: seq<Expense>)
    requires var b := Balances.CalculateBalances(members, expenses);
      forall id :: id in b ==> b[id].final >= -Epsilon
    ensures CalculateSettlements(members, expenses) == []
  {
    var b := Balances.CalculateBalances(members, expenses);
    var ids := MemberIds(members);
    DebtorsNone(ids, b);
    assert |Debtors(ids, b)| == 0;
  }

  /** No debtors when no balance is below minus the tolerance. */
  lemma {:induction false} DebtorsNone(ids: seq<MemberId>, b: map<MemberId, Balance>)
    requires forall id :: id in ids ==> id in b && b[id].final >= -Epsilon
    ensures Debtors(ids, b) == []
  {
    if ids != [] {
      assert ids[0] in ids;
      assert forall id :: id in ids[1..] ==> id in ids;
      DebtorsNone(ids[1..], b);
    }
  }
}
