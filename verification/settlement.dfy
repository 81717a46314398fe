/**
 * The settlement planner of `calculate_optimal_transactions`: split the
 * balances into debtors (negative balance, kept as the positive amount owed)
 * and creditors (positive balance), sort both by amount, largest first, and
 * repeatedly let the current largest debtor pay the current largest creditor
 * the smaller of the two amounts, moving past whichever side reaches zero.
 */
module Settlement {
  import opened Lists

  /** A debtor with the amount it owes, or a creditor with the amount it is owed. */
  datatype Party = Party(id: int, amount: real)

  /** `(from_user, to_user, amount)`: `from` pays `amount` to `to`. */
  datatype Transfer = Transfer(from: int, to: int, amount: real)

  predicate Positive(ps: seq<Party>) {
    forall k :: 0 <= k < |ps| ==> ps[k].amount > 0.0
  }

  function Ids(ps: seq<Party>): (ids: seq<int>)
    ensures |ids| == |ps| && forall k :: 0 <= k < |ps| ==> ids[k] == ps[k].id
  {
    if ps == [] then [] else [ps[0].id] + Ids(ps[1..])
  }

  /** The total amount the parties with id `x` hold. */
  function AmountOf(ps: seq<Party>, x: int): real {
    if ps == [] then 0.0 else (if ps[0].id == x then ps[0].amount else 0.0) + AmountOf(ps[1..], x)
  }

  function Total(ps: seq<Party>): real {
    if ps == [] then 0.0 else ps[0].amount + Total(ps[1..])
  }

  // ---------------------------------------------------------------- partition

  /** One entry per member, as in a dictionary. */
  predicate DistinctIds(items: seq<(int, real)>) {
    forall i, j :: 0 <= i < j < |items| ==> items[i].0 != items[j].0
  }

  /** Sum of the balances of the entries. */
  function SumBalances(items: seq<(int, real)>): real {
    if items == [] then 0.0 else SumBalances(items[..|items| - 1]) + items[|items| - 1].1
  }

  /**
   * `debtors.append((user_id, -balance))` for every negative balance, in
   * dictionary order: at most one entry per balance.
   */
  function Debtors(items: seq<(int, real)>): (ds: seq<Party>)
    ensures |ds| <= |items|
  {
    if items == [] then []
    else
      var e := items[|items| - 1];
      Debtors(items[..|items| - 1]) + (if e.1 < 0.0 then [Party(e.0, -e.1)] else [])
  }

  /**
   * `creditors.append((user_id, balance))` for every positive balance, in
   * dictionary order: at most one entry per balance.
   */
  function Creditors(items: seq<(int, real)>): (cs: seq<Party>)
    ensures |cs| <= |items|
  {
    if items == [] then []
    else
      var e := items[|items| - 1];
      Creditors(items[..|items| - 1]) + (if e.1 > 0.0 then [Party(e.0, e.1)] else [])
  }

  /** Both lists hold only positive amounts: a zero balance goes into neither. */
  lemma {:induction false} PartitionPositive(items: seq<(int, real)>)
    ensures Positive(Debtors(items)) && Positive(Creditors(items))
  {
    if items != [] {
      PartitionPositive(items[..|items| - 1]);
    }
  }

  lemma {:induction false} AmountOfAppend(a: seq<Party>, b: seq<Party>, x: int)
    ensures AmountOf(a + b, x) == AmountOf(a, x) + AmountOf(b, x)
    ensures Total(a + b) == Total(a) + Total(b)
  {
    if a == [] {
      assert a + b == b;
    } else {
      assert (a + b)[1..] == a[1..] + b;
      AmountOfAppend(a[1..], b, x);
    }
  }

  lemma {:induction false} AmountOfAbsent(items: seq<(int, real)>, x: int)
    requires forall i :: 0 <= i < |items| ==> items[i].0 != x
    ensures AmountOf(Debtors(items), x) == 0.0 && AmountOf(Creditors(items), x) == 0.0
  {
    if items != [] {
      var init, e := items[..|items| - 1], items[|items| - 1];
      AmountOfAbsent(init, x);
      AmountOfAppend(Debtors(init), if e.1 < 0.0 then [Party(e.0, -e.1)] else [], x);
      AmountOfAppend(Creditors(init), if e.1 > 0.0 then [Party(e.0, e.1)] else [], x);
    }
  }

  /**
   * The partition: with one entry per member, a member with a negative balance
   * is a debtor for exactly the amount it owes, one with a positive balance is
   * a creditor for exactly its balance, and a member with a zero balance is in
   * neither list.
   */
  lemma PartitionAmounts(items: seq<(int, real)>, k: int)
    requires DistinctIds(items) && 0 <= k < |items|
    ensures AmountOf(Debtors(items), items[k].0) == if items[k].1 < 0.0 then -items[k].1 else 0.0
    ensures AmountOf(Creditors(items), items[k].0) == if items[k].1 > 0.0 then items[k].1 else 0.0
  {
    DebtorAmount(items, k);
    CreditorAmount(items, k);
  }

  lemma {:induction false} DebtorAmount(items: seq<(int, real)>, k: int)
    requires DistinctIds(items) && 0 <= k < |items|
    ensures AmountOf(Debtors(items), items[k].0) == if items[k].1 < 0.0 then -items[k].1 else 0.0
  {
    var n := |items| - 1;
    var init, e, x := items[..n], items[n], items[k].0;
    AmountOfAppend(Debtors(init), if e.1 < 0.0 then [Party(e.0, -e.1)] else [], x);
    if k < n {
      assert items[k] == init[k];
      DebtorAmount(init, k);
    } else {
      AmountOfAbsent(init, x);
    }
  }

  lemma {:induction false} CreditorAmount(items: seq<(int, real)>, k: int)
    requires DistinctIds(items) && 0 <= k < |items|
    ensures AmountOf(Creditors(items), items[k].0) == if items[k].1 > 0.0 then items[k].1 else 0.0
  {
    var n := |items| - 1;
    var init, e, x := items[..n], items[n], items[k].0;
    AmountOfAppend(Creditors(init), if e.1 > 0.0 then [Party(e.0, e.1)] else [], x);
    if k < n {
      assert items[k] == init[k];
      CreditorAmount(init, k);
    } else {
      AmountOfAbsent(init, x);
    }
  }

  /** What the creditors are owed minus what the debtors owe is the sum of the balances. */
  lemma {:induction false} PartitionTotals(items: seq<(int, real)>)
    ensures Total(Creditors(items)) - Total(Debtors(items)) == SumBalances(items)
  {
    if items != [] {
      var init, e := items[..|items| - 1], items[|items| - 1];
      PartitionTotals(init);
      AmountOfAppend(Debtors(init), if e.1 < 0.0 then [Party(e.0, -e.1)] else [], 0);
      AmountOfAppend(Creditors(init), if e.1 > 0.0 then [Party(e.0, e.1)] else [], 0);
    }
  }

  // ---------------------------------------------------------------- sorting

  predicate SortedDesc(ps: seq<Party>) {
    forall i, j :: 0 <= i < j < |ps| ==> ps[i].amount >= ps[j].amount
  }

  /** Places `p` before the first party whose amount is not larger, so equal amounts keep their order. */
  function Insert(p: Party, s: seq<Party>): (r: seq<Party>)
    ensures |r| == |s| + 1
    ensures multiset(r) == multiset(s) + multiset{p}
  {
    if s == [] || s[0].amount <= p.amount then
      [p] + s
    else
      assert s == [s[0]] + s[1..];
      [s[0]] + Insert(p, s[1..])
  }

  /**
   * `list.sort(key=amount, reverse=True)`: a stable sort, largest amount
   * first; it is a permutation of its input.
   */
  function SortDesc(ps: seq<Party>): (r: seq<Party>)
    ensures |r| == |ps| && multiset(r) == multiset(ps)
  {
    if ps == [] then []
    else
      assert ps == [ps[0]] + ps[1..];
      Insert(ps[0], SortDesc(ps[1..]))
  }

  lemma {:induction false} InsertSorted(p: Party, s: seq<Party>)
    requires SortedDesc(s)
    ensures SortedDesc(Insert(p, s))
    ensures Insert(p, s)[0] == p || Insert(p, s)[0] == s[0]
  {
    if s != [] && s[0].amount > p.amount {
      var t := s[1..];
      assert SortedDesc(t) by {
        assert forall i :: 0 <= i < |t| ==> t[i] == s[i + 1];
      }
      InsertSorted(p, t);
      var rest := Insert(p, t);
      forall j | 0 <= j < |rest| ensures rest[j].amount <= s[0].amount {
        assert rest[j] in multiset(rest);
        assert rest[j] == p || rest[j] in t;
      }
      ConsSorted(s[0], rest);
    }
  }

  /** A party at least as large as everything in a descending list can go in front of it. */
  lemma ConsSorted(x: Party, s: seq<Party>)
    requires SortedDesc(s) && forall j :: 0 <= j < |s| ==> s[j].amount <= x.amount
    ensures SortedDesc([x] + s)
  {
    var r := [x] + s;
    forall i, j | 0 <= i < j < |r| ensures r[i].amount >= r[j].amount {
      assert r[j] == s[j - 1];
      if i > 0 {
        assert r[i] == s[i - 1];
      }
    }
  }

  /** The sort's output is in non-increasing order of amount. */
  lemma {:induction false} SortDescSorted(ps: seq<Party>)
    ensures SortedDesc(SortDesc(ps))
  {
    if ps != [] {
      SortDescSorted(ps[1..]);
      InsertSorted(ps[0], SortDesc(ps[1..]));
    }
  }

  /** The parties of `s` whose amount is `a`, in the order of `s`. */
  function WithAmount(s: seq<Party>, a: real): (r: seq<Party>)
    ensures |r| <= |s|
    ensures forall i :: 0 <= i < |r| ==> r[i].amount == a && r[i] in s
  {
    if s == [] then []
    else (if s[0].amount == a then [s[0]] else []) + WithAmount(s[1..], a)
  }

  /** Inserting `p` puts it ahead of every party of equal amount already present. */
  lemma {:induction false} InsertStable(p: Party, s: seq<Party>, a: real)
    ensures WithAmount(Insert(p, s), a) == (if p.amount == a then [p] else []) + WithAmount(s, a)
  {
    var r := Insert(p, s);
    if s == [] || s[0].amount <= p.amount {
      assert r[1..] == s;
    } else {
      InsertStable(p, s[1..], a);
      assert r[1..] == Insert(p, s[1..]);
    }
  }

  /**
   * The sort is stable: for every amount, the parties with that amount come
   * out in the order they went in.
   */
  lemma {:induction false} SortDescStable(ps: seq<Party>, a: real)
    ensures WithAmount(SortDesc(ps), a) == WithAmount(ps, a)
  {
    if ps != [] {
      SortDescStable(ps[1..], a);
      InsertStable(ps[0], SortDesc(ps[1..]), a);
    }
  }

  lemma {:induction false} InsertAmounts(p: Party, s: seq<Party>, x: int)
    ensures AmountOf(Insert(p, s), x) == AmountOf(s, x) + (if p.id == x then p.amount else 0.0)
    ensures Total(Insert(p, s)) == Total(s) + p.amount
  {
    var r := Insert(p, s);
    if s == [] || s[0].amount <= p.amount {
      assert r[1..] == s;
    } else {
      InsertAmounts(p, s[1..], x);
      assert r[1..] == Insert(p, s[1..]);
    }
  }

  lemma {:induction false} InsertPositive(p: Party, s: seq<Party>)
    requires Positive(s) && p.amount > 0.0
    ensures Positive(Insert(p, s))
  {
    var r := Insert(p, s);
    if s == [] || s[0].amount <= p.amount {
      assert r[1..] == s;
    } else {
      assert Positive(s[1..]) by {
        assert forall i :: 0 <= i < |s| - 1 ==> s[1..][i] == s[i + 1];
      }
      InsertPositive(p, s[1..]);
      assert r[1..] == Insert(p, s[1..]);
      assert forall i :: 1 <= i < |r| ==> r[i] == r[1..][i - 1];
    }
  }

  /** Sorting keeps what every member owes or is owed, the total, and positivity. */
  lemma SortDescAmounts(ps: seq<Party>, x: int)
    ensures AmountOf(SortDesc(ps), x) == AmountOf(ps, x)
    ensures Total(SortDesc(ps)) == Total(ps)
    ensures Positive(ps) ==> Positive(SortDesc(ps))
  {
    SortDescAmountOf(ps, x);
    if Positive(ps) {
      SortDescPositive(ps);
    }
  }

  lemma {:induction false} SortDescAmountOf(ps: seq<Party>, x: int)
    ensures AmountOf(SortDesc(ps), x) == AmountOf(ps, x)
    ensures Total(SortDesc(ps)) == Total(ps)
  {
    if ps != [] {
      SortDescAmountOf(ps[1..], x);
      InsertAmounts(ps[0], SortDesc(ps[1..]), x);
    }
  }

  lemma {:induction false} SortDescPositive(ps: seq<Party>)
    requires Positive(ps)
    ensures Positive(SortDesc(ps))
  {
    if ps != [] {
      assert Positive(ps[1..]) by {
        assert forall i :: 0 <= i < |ps| - 1 ==> ps[1..][i] == ps[i + 1];
      }
      SortDescPositive(ps[1..]);
      InsertPositive(ps[0], SortDesc(ps[1..]));
    }
  }

  // ---------------------------------------------------------------- matching

  function Min(a: real, b: real): real {
    if a <= b then a else b
  }

  /** The party after paying or receiving: dropped once it reaches zero, otherwise kept in front. */
  function Remaining(p: Party, rest: seq<Party>): seq<Party> {
    if p.amount == 0.0 then rest else [p] + rest
  }

  /** `settled_amount = min(debt, credit)` for the current debtor and creditor. */
  function Settled(ds: seq<Party>, cs: seq<Party>): real
    requires ds != [] && cs != []
  {
    Min(ds[0].amount, cs[0].amount)
  }

  /** The debtors once the current one has paid `Settled`. */
  function NextDebtors(ds: seq<Party>, cs: seq<Party>): seq<Party>
    requires ds != [] && cs != []
  {
    Remaining(Party(ds[0].id, ds[0].amount - Settled(ds, cs)), ds[1..])
  }

  /** The creditors once the current one has received `Settled`. */
  function NextCreditors(ds: seq<Party>, cs: seq<Party>): seq<Party>
    requires ds != [] && cs != []
  {
    Remaining(Party(cs[0].id, cs[0].amount - Settled(ds, cs)), cs[1..])
  }

  /**
   * The `while` loop of the planner: the first debtor pays the first creditor
   * the smaller of their amounts, both are reduced, and whichever reached
   * zero is passed. There are no transfers when either list is empty;
   * otherwise at least one, and at most one fewer than the number of parties,
   * since every transfer but the last passes at least one party and the last
   * passes both.
   */
  function Greedy(ds: seq<Party>, cs: seq<Party>): (ts: seq<Transfer>)
    ensures ds == [] || cs == [] ==> ts == []
    ensures ds != [] && cs != [] ==> 1 <= |ts| <= |ds| + |cs| - 1
    decreases |ds| + |cs|
  {
    if ds == [] || cs == [] then []
    else [Transfer(ds[0].id, cs[0].id, Settled(ds, cs))] + Greedy(NextDebtors(ds, cs), NextCreditors(ds, cs))
  }

  /**
   * What `calculate_optimal_transactions(balances)` returns: no transfers when
   * there are no debtors or no creditors, and otherwise at most one fewer than
   * the number of members with a non-zero balance.
   */
  function Plan(items: seq<(int, real)>): (ts: seq<Transfer>)
    ensures Debtors(items) == [] || Creditors(items) == [] ==> ts == []
    ensures Debtors(items) != [] && Creditors(items) != [] ==>
      1 <= |ts| <= |Debtors(items)| + |Creditors(items)| - 1
  {
    Greedy(SortDesc(Debtors(items)), SortDesc(Creditors(items)))
  }

  /** The first loop of `calculate_optimal_transactions`: one pass over the balances, appending to two lists. */
  method Partition(balances: seq<(int, real)>) returns (debtors: seq<Party>, creditors: seq<Party>)
    ensures debtors == Debtors(balances) && creditors == Creditors(balances)
  {
    debtors, creditors := [], [];
    var n := 0;
    while n < |balances|
      invariant 0 <= n <= |balances|
      invariant debtors == Debtors(balances[..n]) && creditors == Creditors(balances[..n])
    {
      assert balances[..n + 1][..n] == balances[..n];
      var (userId, balance) := balances[n];
      if balance < 0.0 {
        debtors := debtors + [Party(userId, -balance)];
      } else if balance > 0.0 {
        creditors := creditors + [Party(userId, balance)];
      }
      n := n + 1;
    }
    assert balances[..n] == balances;
  }

  /**
   * The matching loop of `calculate_optimal_transactions`: the current debtor
   * and creditor are overwritten in their lists with what is left of them, and
   * an index moves on once its party is at zero.
   */
  method Match(ds: seq<Party>, cs: seq<Party>) returns (transactions: seq<Transfer>)
    ensures transactions == Greedy(ds, cs)
  {
    var debtors, creditors := ds, cs;
    var i, j := 0, 0;
    transactions := [];
    while i < |debtors| && j < |creditors|
      invariant 0 <= i <= |debtors| && 0 <= j <= |creditors|
      invariant Greedy(ds, cs) == transactions + Greedy(debtors[i..], creditors[j..])
      decreases |debtors| - i + |creditors| - j
    {
      ghost var done, debtors0, creditors0, i0, j0 := transactions, debtors, creditors, i, j;
      var debtor, creditor := debtors[i], creditors[j];
      var settledAmount := Min(debtor.amount, creditor.amount);
      var transfer := Transfer(debtor.id, creditor.id, settledAmount);
      transactions := transactions + [transfer];
      debtors := debtors[i := Party(debtor.id, debtor.amount - settledAmount)];
      creditors := creditors[j := Party(creditor.id, creditor.amount - settledAmount)];
      if debtors[i].amount == 0.0 {
        i := i + 1;
      }
      if creditors[j].amount == 0.0 {
        j := j + 1;
      }
      MatchInvariant(ds, cs, done, debtors0, creditors0, i0, j0, debtors, creditors, i, j, transfer);
    }
  }

  /** One turn of the matching loop, in terms of `Greedy`. */
  lemma MatchStep(ds: seq<Party>, cs: seq<Party>)
    requires ds != [] && cs != []
    ensures Greedy(ds, cs) == [Transfer(ds[0].id, cs[0].id, Settled(ds, cs))] + Greedy(NextDebtors(ds, cs), NextCreditors(ds, cs))
  {
  }

  /** One turn of the matching loop over the lists and their indices: it emits `t` and leaves the rest to `Greedy`. */
  lemma MatchTurn(ds: seq<Party>, cs: seq<Party>, i: nat, j: nat,
                  ds': seq<Party>, cs': seq<Party>, i': nat, j': nat, t: Transfer)
    requires i < |ds| && j < |cs|
    requires t == Transfer(ds[i].id, cs[j].id, Min(ds[i].amount, cs[j].amount))
    requires ds' == ds[i := Party(ds[i].id, ds[i].amount - t.amount)]
    requires cs' == cs[j := Party(cs[j].id, cs[j].amount - t.amount)]
    requires i' == if ds'[i].amount == 0.0 then i + 1 else i
    requires j' == if cs'[j].amount == 0.0 then j + 1 else j
    ensures Greedy(ds[i..], cs[j..]) == [t] + Greedy(ds'[i'..], cs'[j'..])
  {
    assert ds[i..][1..] == ds'[i + 1..] && cs[j..][1..] == cs'[j + 1..];
    assert ds'[i..] == [ds'[i]] + ds'[i + 1..] && cs'[j..] == [cs'[j]] + cs'[j + 1..];
    MatchStep(ds[i..], cs[j..]);
  }

  /** The matching loop's invariant survives one turn. */
  lemma MatchInvariant(ds: seq<Party>, cs: seq<Party>, done: seq<Transfer>,
                       d0: seq<Party>, c0: seq<Party>, i: nat, j: nat,
                       d1: seq<Party>, c1: seq<Party>, i': nat, j': nat, t: Transfer)
    requires i < |d0| && j < |c0|
    requires Greedy(ds, cs) == done + Greedy(d0[i..], c0[j..])
    requires t == Transfer(d0[i].id, c0[j].id, Min(d0[i].amount, c0[j].amount))
    requires d1 == d0[i := Party(d0[i].id, d0[i].amount - t.amount)]
    requires c1 == c0[j := Party(c0[j].id, c0[j].amount - t.amount)]
    requires i' == if d1[i].amount == 0.0 then i + 1 else i
    requires j' == if c1[j].amount == 0.0 then j + 1 else j
    ensures Greedy(ds, cs) == (done + [t]) + Greedy(d1[i'..], c1[j'..])
  {
    MatchTurn(d0, c0, i, j, d1, c1, i', j', t);
  }

  /** `calculate_optimal_transactions(balances)`: partition, sort both lists, match. */
  method CalculateOptimalTransactions(balances: seq<(int, real)>) returns (transactions: seq<Transfer>)
    ensures transactions == Plan(balances)
  {
    var debtors, creditors := Partition(balances);
    debtors := SortDesc(debtors);
    creditors := SortDesc(creditors);
    transactions := Match(debtors, creditors);
  }

  // ---------------------------------------------------------------- properties of the matching

  /** Sum of what `x` pays. */
  function Paid(ts: seq<Transfer>, x: int): real {
    if ts == [] then 0.0 else (if ts[0].from == x then ts[0].amount else 0.0) + Paid(ts[1..], x)
  }

  /** Sum of what `x` receives. */
  function Received(ts: seq<Transfer>, x: int): real {
    if ts == [] then 0.0 else (if ts[0].to == x then ts[0].amount else 0.0) + Received(ts[1..], x)
  }

  /** Sum of all amounts transferred. */
  function Moved(ts: seq<Transfer>): real {
    if ts == [] then 0.0 else ts[0].amount + Moved(ts[1..])
  }

  lemma PositiveHead(ps: seq<Party>)
    requires Positive(ps) && ps != []
    ensures ps[0].amount > 0.0 && Positive(ps[1..]) && ps == [ps[0]] + ps[1..]
  {
    assert forall k :: 0 <= k < |ps| - 1 ==> ps[1..][k] == ps[k + 1];
  }

  /** A positive party that pays or receives at most what it holds: what is left is still positive, or it is gone. */
  lemma RemainingPositive(p: Party, settled: real, rest: seq<Party>, x: int)
    requires p.amount > 0.0 && 0.0 < settled <= p.amount && Positive(rest)
    ensures Positive(Remaining(Party(p.id, p.amount - settled), rest))
    ensures AmountOf(Remaining(Party(p.id, p.amount - settled), rest), x)
      == AmountOf([p] + rest, x) - (if p.id == x then settled else 0.0)
    ensures Total(Remaining(Party(p.id, p.amount - settled), rest)) == Total([p] + rest) - settled
  {
    var q := Party(p.id, p.amount - settled);
    assert ([p] + rest)[1..] == rest;
    if q.amount != 0.0 {
      assert ([q] + rest)[1..] == rest;
      assert Positive([q] + rest) by {
        forall k | 0 <= k < |rest| + 1 ensures ([q] + rest)[k].amount > 0.0 {
          if k > 0 { assert ([q] + rest)[k] == rest[k - 1]; }
        }
      }
    }
  }

  /** One step on positive lists: a positive amount moves and both lists lose exactly that much. */
  lemma GreedyStep(ds: seq<Party>, cs: seq<Party>, x: int)
    requires Positive(ds) && Positive(cs) && ds != [] && cs != []
    ensures Settled(ds, cs) > 0.0
    ensures Positive(NextDebtors(ds, cs)) && Positive(NextCreditors(ds, cs))
    ensures AmountOf(NextDebtors(ds, cs), x) == AmountOf(ds, x) - (if ds[0].id == x then Settled(ds, cs) else 0.0)
    ensures AmountOf(NextCreditors(ds, cs), x) == AmountOf(cs, x) - (if cs[0].id == x then Settled(ds, cs) else 0.0)
    ensures Total(NextDebtors(ds, cs)) == Total(ds) - Settled(ds, cs)
    ensures Total(NextCreditors(ds, cs)) == Total(cs) - Settled(ds, cs)
  {
    PositiveHead(ds);
    PositiveHead(cs);
    RemainingPositive(ds[0], Settled(ds, cs), ds[1..], x);
    RemainingPositive(cs[0], Settled(ds, cs), cs[1..], x);
  }

  lemma IdsRemaining(p: Party, rest: seq<Party>)
    ensures forall y :: y in Ids(Remaining(p, rest)) ==> y == p.id || y in Ids(rest)
  {
    if p.amount != 0.0 {
      assert Ids([p] + rest) == [p.id] + Ids(rest) by { assert ([p] + rest)[1..] == rest; }
    }
  }

  /** Every transfer moves a strictly positive amount from a debtor to a creditor. */
  lemma {:induction false} GreedyTransfers(ds: seq<Party>, cs: seq<Party>)
    requires Positive(ds) && Positive(cs)
    ensures forall k :: 0 <= k < |Greedy(ds, cs)| ==>
      Greedy(ds, cs)[k].amount > 0.0 && Greedy(ds, cs)[k].from in Ids(ds) && Greedy(ds, cs)[k].to in Ids(cs)
    decreases |ds| + |cs|
  {
    if ds != [] && cs != [] {
      GreedyStep(ds, cs, 0);
      var ds', cs' := NextDebtors(ds, cs), NextCreditors(ds, cs);
      GreedyTransfers(ds', cs');
      var g, g' := Greedy(ds, cs), Greedy(ds', cs');
      IdsRemaining(Party(ds[0].id, ds[0].amount - Settled(ds, cs)), ds[1..]);
      IdsRemaining(Party(cs[0].id, cs[0].amount - Settled(ds, cs)), cs[1..]);
      assert Ids(ds) == [ds[0].id] + Ids(ds[1..]);
      assert Ids(cs) == [cs[0].id] + Ids(cs[1..]);
      forall k | 0 <= k < |g| ensures g[k].amount > 0.0 && g[k].from in Ids(ds) && g[k].to in Ids(cs) {
        if k > 0 {
          assert g[k] == g'[k - 1];
        }
      }
    }
  }

  /** Positive parties hold non-negative amounts, and a positive total when there is any. */
  lemma {:induction false} NonNegative(ps: seq<Party>, x: int)
    requires Positive(ps)
    ensures AmountOf(ps, x) >= 0.0 && Total(ps) >= 0.0
    ensures ps != [] ==> Total(ps) > 0.0
  {
    if ps != [] {
      PositiveHead(ps);
      NonNegative(ps[1..], x);
    }
  }

  /** No debtor pays more in total than it owes. */
  lemma {:induction false} GreedyPaidBound(ds: seq<Party>, cs: seq<Party>, x: int)
    requires Positive(ds) && Positive(cs)
    ensures Paid(Greedy(ds, cs), x) <= AmountOf(ds, x)
    decreases |ds| + |cs|
  {
    if ds == [] || cs == [] {
      NonNegative(ds, x);
    } else {
      GreedyStep(ds, cs, x);
      GreedyPaidBound(NextDebtors(ds, cs), NextCreditors(ds, cs), x);
    }
  }

  /** No creditor receives more in total than it is owed. */
  lemma {:induction false} GreedyReceivedBound(ds: seq<Party>, cs: seq<Party>, x: int)
    requires Positive(ds) && Positive(cs)
    ensures Received(Greedy(ds, cs), x) <= AmountOf(cs, x)
    decreases |ds| + |cs|
  {
    if ds == [] || cs == [] {
      NonNegative(cs, x);
    } else {
      GreedyStep(ds, cs, x);
      GreedyReceivedBound(NextDebtors(ds, cs), NextCreditors(ds, cs), x);
    }
  }

  /** In all, the smaller of what is owed and what is due changes hands. */
  lemma {:induction false} GreedyMoved(ds: seq<Party>, cs: seq<Party>)
    requires Positive(ds) && Positive(cs)
    ensures Moved(Greedy(ds, cs)) == Min(Total(ds), Total(cs))
    decreases |ds| + |cs|
  {
    if ds == [] || cs == [] {
      NonNegative(ds, 0);
      NonNegative(cs, 0);
    } else {
      GreedyStep(ds, cs, 0);
      GreedyMoved(NextDebtors(ds, cs), NextCreditors(ds, cs));
    }
  }

  /**
   * When what the debtors owe equals what the creditors are owed, the loop
   * drains both lists: every debtor pays exactly what it owes and every
   * creditor receives exactly what it is owed.
   */
  lemma {:induction false} GreedySettles(ds: seq<Party>, cs: seq<Party>, x: int)
    requires Positive(ds) && Positive(cs) && Total(ds) == Total(cs)
    ensures Paid(Greedy(ds, cs), x) == AmountOf(ds, x)
    ensures Received(Greedy(ds, cs), x) == AmountOf(cs, x)
    decreases |ds| + |cs|
  {
    if ds == [] || cs == [] {
      NonNegative(ds, x);
      NonNegative(cs, x);
    } else {
      GreedyStep(ds, cs, x);
      GreedySettles(NextDebtors(ds, cs), NextCreditors(ds, cs), x);
    }
  }

  // ---------------------------------------------------------------- properties of the plan

  /** What a member pays under the plan is at most what it owes; what it receives, at most what it is owed. */
  lemma PlanBounds(items: seq<(int, real)>, x: int)
    ensures Paid(Plan(items), x) <= AmountOf(Debtors(items), x)
    ensures Received(Plan(items), x) <= AmountOf(Creditors(items), x)
  {
    PartitionPositive(items);
    SortDescAmounts(Debtors(items), x);
    SortDescAmounts(Creditors(items), x);
    GreedyPaidBound(SortDesc(Debtors(items)), SortDesc(Creditors(items)), x);
    GreedyReceivedBound(SortDesc(Debtors(items)), SortDesc(Creditors(items)), x);
  }

  /**
   * With one entry per member, no member pays more than it owes and none
   * receives more than it is owed; a member whose balance is zero takes no part.
   */
  lemma PlanNeverOverpays(items: seq<(int, real)>, k: int)
    requires DistinctIds(items) && 0 <= k < |items|
    ensures Paid(Plan(items), items[k].0) <= if items[k].1 < 0.0 then -items[k].1 else 0.0
    ensures Received(Plan(items), items[k].0) <= if items[k].1 > 0.0 then items[k].1 else 0.0
  {
    PartitionAmounts(items, k);
    PlanBounds(items, items[k].0);
  }

  /** Every planned transfer is a positive amount from a debtor to a creditor. */
  lemma PlanTransfers(items: seq<(int, real)>)
    ensures forall t :: 0 <= t < |Plan(items)| ==>
      var tr := Plan(items)[t];
      && tr.amount > 0.0
      && AmountOf(Debtors(items), tr.from) > 0.0
      && AmountOf(Creditors(items), tr.to) > 0.0
  {
    PartitionPositive(items);
    var ds, cs := SortDesc(Debtors(items)), SortDesc(Creditors(items));
    SortDescAmounts(Debtors(items), 0);
    SortDescAmounts(Creditors(items), 0);
    GreedyTransfers(ds, cs);
    forall t | 0 <= t < |Plan(items)|
      ensures AmountOf(Debtors(items), Plan(items)[t].from) > 0.0
      ensures AmountOf(Creditors(items), Plan(items)[t].to) > 0.0
    {
      var tr := Plan(items)[t];
      PresentIsPositive(ds, tr.from);
      PresentIsPositive(cs, tr.to);
      SortDescAmounts(Debtors(items), tr.from);
      SortDescAmounts(Creditors(items), tr.to);
    }
  }

  /** A party listed among positive parties holds a positive amount. */
  lemma {:induction false} PresentIsPositive(ps: seq<Party>, x: int)
    requires Positive(ps) && x in Ids(ps)
    ensures AmountOf(ps, x) > 0.0
  {
    PositiveHead(ps);
    NonNegative(ps[1..], x);
    if ps[0].id != x {
      assert Ids(ps) == [ps[0].id] + Ids(ps[1..]);
      PresentIsPositive(ps[1..], x);
    }
  }

  /** When the balances sum to zero, every debtor pays all it owes and every creditor receives all it is owed. */
  lemma PlanDrains(items: seq<(int, real)>, x: int)
    requires SumBalances(items) == 0.0
    ensures Paid(Plan(items), x) == AmountOf(Debtors(items), x)
    ensures Received(Plan(items), x) == AmountOf(Creditors(items), x)
  {
    PartitionPositive(items);
    PartitionTotals(items);
    SortDescAmounts(Debtors(items), x);
    SortDescAmounts(Creditors(items), x);
    GreedySettles(SortDesc(Debtors(items)), SortDesc(Creditors(items)), x);
  }

  /**
   * The settlement theorem: when the balances sum to zero (as the balance
   * engine guarantees), carrying out every planned transfer brings every
   * member's balance to exactly zero.
   */
  lemma PlanSettles(items: seq<(int, real)>, k: int)
    requires DistinctIds(items) && SumBalances(items) == 0.0 && 0 <= k < |items|
    ensures items[k].1 + Paid(Plan(items), items[k].0) - Received(Plan(items), items[k].0) == 0.0
  {
    PartitionAmounts(items, k);
    PlanDrains(items, items[k].0);
  }

  /** The balances after the dinner example: one member is owed 200/3, two owe 100/3 each. */
  lemma DinnerPartition(a: int, b: int, c: int)
    ensures Debtors([(a, 200.0 / 3.0), (b, -100.0 / 3.0), (c, -100.0 / 3.0)])
      == [Party(b, 100.0 / 3.0), Party(c, 100.0 / 3.0)]
    ensures Creditors([(a, 200.0 / 3.0), (b, -100.0 / 3.0), (c, -100.0 / 3.0)])
      == [Party(a, 200.0 / 3.0)]
  {
    var items := [(a, 200.0 / 3.0), (b, -100.0 / 3.0), (c, -100.0 / 3.0)];
    var one, two := items[..1], items[..2];
    assert one[..0] == [] && two[..1] == one && items[..2] == two;
    assert |one| == 1 && one[0] == (a, 200.0 / 3.0) && two[1] == (b, -100.0 / 3.0);
    assert Debtors(one) == [] && Creditors(one) == [Party(a, 200.0 / 3.0)];
    assert Debtors(two) == [Party(b, 100.0 / 3.0)] && Creditors(two) == [Party(a, 200.0 / 3.0)];
  }

  /** Matching the dinner example's sorted lists. */
  lemma DinnerMatch(a: int, b: int, c: int)
    ensures Greedy([Party(b, 100.0 / 3.0), Party(c, 100.0 / 3.0)], [Party(a, 200.0 / 3.0)])
      == [Transfer(b, a, 100.0 / 3.0), Transfer(c, a, 100.0 / 3.0)]
  {
    var third := 100.0 / 3.0;
    var ds, cs := [Party(b, third), Party(c, third)], [Party(a, 200.0 / 3.0)];
    assert Settled(ds, cs) == third;
    assert NextDebtors(ds, cs) == [Party(c, third)] && NextCreditors(ds, cs) == [Party(a, third)];
    assert Greedy([Party(c, third)], [Party(a, third)]) == [Transfer(c, a, third)];
  }

  /** The dinner example: the two who owe a third each pay it to the one who paid. */
  lemma DinnerSettlement(a: int, b: int, c: int)
    ensures Plan([(a, 200.0 / 3.0), (b, -100.0 / 3.0), (c, -100.0 / 3.0)])
      == [Transfer(b, a, 100.0 / 3.0), Transfer(c, a, 100.0 / 3.0)]
  {
    DinnerPartition(a, b, c);
    var third := 100.0 / 3.0;
    assert SortDesc([Party(c, third)]) == [Party(c, third)];
    assert SortDesc([Party(b, third), Party(c, third)]) == [Party(b, third), Party(c, third)];
    assert SortDesc([Party(a, 200.0 / 3.0)]) == [Party(a, 200.0 / 3.0)];
    DinnerMatch(a, b, c);
  }

  /**
   * Two debtors owing 3 and three creditors owed 2 each need four transfers:
   * more than the larger of the two counts, and exactly one fewer than the
   * number of parties.
   */
  lemma BoundExceedsMax()
    ensures |Greedy([Party(1, 3.0), Party(2, 3.0)], [Party(3, 2.0), Party(4, 2.0), Party(5, 2.0)])| == 4
  {
    var ds, cs := [Party(1, 3.0), Party(2, 3.0)], [Party(3, 2.0), Party(4, 2.0), Party(5, 2.0)];
    assert NextDebtors(ds, cs) == [Party(1, 1.0), Party(2, 3.0)];
    assert NextCreditors(ds, cs) == [Party(4, 2.0), Party(5, 2.0)];
    var ds1, cs1 := [Party(1, 1.0), Party(2, 3.0)], [Party(4, 2.0), Party(5, 2.0)];
    assert NextDebtors(ds1, cs1) == [Party(2, 3.0)];
    assert NextCreditors(ds1, cs1) == [Party(4, 1.0), Party(5, 2.0)];
    var ds2, cs2 := [Party(2, 3.0)], [Party(4, 1.0), Party(5, 2.0)];
    assert NextDebtors(ds2, cs2) == [Party(2, 2.0)];
    assert NextCreditors(ds2, cs2) == [Party(5, 2.0)];
    var ds3, cs3 := [Party(2, 2.0)], [Party(5, 2.0)];
    assert NextDebtors(ds3, cs3) == [] && NextCreditors(ds3, cs3) == [];
    assert |Greedy(ds3, cs3)| == 1;
  }

  /**
   * The greedy matching is not always the shortest plan: debtors owing 3, 2,
   * 2 and 1 against creditors owed 4 and 4 take five greedy transfers, while
   * `FourTransfersSuffice` settles the same balances with four.
   */
  lemma GreedyNotMinimal()
    ensures |Greedy([Party(1, 3.0), Party(2, 2.0), Party(3, 2.0), Party(4, 1.0)], [Party(5, 4.0), Party(6, 4.0)])| == 5
  {
    var ds, cs := [Party(1, 3.0), Party(2, 2.0), Party(3, 2.0), Party(4, 1.0)], [Party(5, 4.0), Party(6, 4.0)];
    assert NextDebtors(ds, cs) == [Party(2, 2.0), Party(3, 2.0), Party(4, 1.0)];
    assert NextCreditors(ds, cs) == [Party(5, 1.0), Party(6, 4.0)];
    var ds1, cs1 := [Party(2, 2.0), Party(3, 2.0), Party(4, 1.0)], [Party(5, 1.0), Party(6, 4.0)];
    assert NextDebtors(ds1, cs1) == [Party(2, 1.0), Party(3, 2.0), Party(4, 1.0)];
    assert NextCreditors(ds1, cs1) == [Party(6, 4.0)];
    var ds2, cs2 := [Party(2, 1.0), Party(3, 2.0), Party(4, 1.0)], [Party(6, 4.0)];
    assert NextDebtors(ds2, cs2) == [Party(3, 2.0), Party(4, 1.0)];
    assert NextCreditors(ds2, cs2) == [Party(6, 3.0)];
    var ds3, cs3 := [Party(3, 2.0), Party(4, 1.0)], [Party(6, 3.0)];
    assert NextDebtors(ds3, cs3) == [Party(4, 1.0)];
    assert NextCreditors(ds3, cs3) == [Party(6, 1.0)];
    var ds4, cs4 := [Party(4, 1.0)], [Party(6, 1.0)];
    assert NextDebtors(ds4, cs4) == [] && NextCreditors(ds4, cs4) == [];
    assert |Greedy(ds4, cs4)| == 1;
  }

  /** Four transfers pay every debtor and every creditor of `GreedyNotMinimal` exactly. */
  lemma FourTransfersSuffice(x: int)
    ensures var ts := [Transfer(1, 5, 3.0), Transfer(4, 5, 1.0), Transfer(2, 6, 2.0), Transfer(3, 6, 2.0)];
      && Paid(ts, x) == AmountOf([Party(1, 3.0), Party(2, 2.0), Party(3, 2.0), Party(4, 1.0)], x)
      && Received(ts, x) == AmountOf([Party(5, 4.0), Party(6, 4.0)], x)
  {
    var t3 := [Transfer(3, 6, 2.0)];
    var t2 := [Transfer(2, 6, 2.0)] + t3;
    var t1 := [Transfer(4, 5, 1.0)] + t2;
    var ts := [Transfer(1, 5, 3.0)] + t1;
    assert t3[1..] == [] && t2[1..] == t3 && t1[1..] == t2 && ts[1..] == t1;
    var d3 := [Party(4, 1.0)];
    var d2 := [Party(3, 2.0)] + d3;
    var d1 := [Party(2, 2.0)] + d2;
    var ds := [Party(1, 3.0)] + d1;
    assert d3[1..] == [] && d2[1..] == d3 && d1[1..] == d2 && ds[1..] == d1;
    var c1 := [Party(6, 4.0)];
    var cs := [Party(5, 4.0)] + c1;
    assert c1[1..] == [] && cs[1..] == c1;
    var p1, p2, p3, p4 := (if x == 1 then 3.0 else 0.0), (if x == 2 then 2.0 else 0.0), (if x == 3 then 2.0 else 0.0), (if x == 4 then 1.0 else 0.0);
    assert Paid(t3, x) == p3;
    assert Paid(t2, x) == p2 + p3;
    assert Paid(t1, x) == p4 + p2 + p3;
    assert AmountOf(d3, x) == p4;
    assert AmountOf(d2, x) == p3 + p4;
    assert AmountOf(d1, x) == p2 + p3 + p4;
    var half := if x == 6 then 2.0 else 0.0;
    assert Received(t3, x) == half;
    assert Received(t2, x) == half + half;
    assert Received(t1, x) == (if x == 5 then 1.0 else 0.0) + half + half;
    assert AmountOf(c1, x) == half + half;
    assert [Transfer(1, 5, 3.0), Transfer(4, 5, 1.0), Transfer(2, 6, 2.0), Transfer(3, 6, 2.0)] == ts;
    assert [Party(1, 3.0), Party(2, 2.0), Party(3, 2.0), Party(4, 1.0)] == ds;
    assert [Party(5, 4.0), Party(6, 4.0)] == cs;
  }
}
