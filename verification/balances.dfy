/**
 * The balance engine of `get_balances`: every member of the group starts at
 * zero; for each expense with at least one participant, every participant is
 * debited an equal share of the amount and the payer is credited the whole
 * amount. A participant or payer that is not a member has no entry in the
 * balance dictionary, and the lookup raises `KeyError`; the model returns
 * `None` for that.
 */
module Balances {
  import opened Wrappers
  import opened Lists

  /** One stored expense as the engine reads it: amount, payer, and the participant ids of its links. */
  datatype Charge = Charge(amount: real, payer: int, participants: seq<int>)

  type BalanceMap = map<int, real>

  /** `{user_id: 0.0 for user_id, _ in members}`. */
  function Initial(memberIds: seq<int>): (b: BalanceMap)
    ensures b.Keys == set m | m in memberIds
    ensures forall m :: m in b ==> b[m] == 0.0
  {
    map m | m in memberIds :: 0.0
  }

  /** `balances[member_id] -= share` for each participant in turn; `None` at the first one without an entry. */
  function DebitAll(b: BalanceMap, ps: seq<int>, share: real): Option<BalanceMap>
    decreases |ps|
  {
    if ps == [] then Some(b)
    else if ps[0] !in b then None
    else DebitAll(b[ps[0] := b[ps[0]] - share], ps[1..], share)
  }

  /** The equal share of one participant. */
  function Share(c: Charge): real
    requires c.participants != []
  {
    c.amount / |c.participants| as real
  }

  /** The lookups of one expense succeed: it has no participants, or its payer and all its participants have entries. */
  predicate LookupsSucceed(b: BalanceMap, c: Charge) {
    c.participants == [] || (c.payer in b && forall i :: 0 <= i < |c.participants| ==> c.participants[i] in b)
  }

  /**
   * The effect of one expense: skipped when it has no participants, otherwise
   * debit every participant and credit the payer. It raises `KeyError`
   * exactly when some lookup fails, and never adds or drops an entry.
   */
  function ApplyCharge(b: BalanceMap, c: Charge): (r: Option<BalanceMap>)
    ensures r.Some? <==> LookupsSucceed(b, c)
    ensures r.Some? ==> r.value.Keys == b.Keys
  {
    if c.participants == [] then Some(b)
    else
      DebitAllFails(b, c.participants, Share(c));
      match DebitAll(b, c.participants, Share(c))
      case None => None
      case Some(b') =>
        DebitAllValues(b, c.participants, Share(c));
        if c.payer in b' then Some(b'[c.payer := b'[c.payer] + c.amount]) else None
  }

  /** The loop over the expenses, stopping at the first `KeyError`; the keys never change. */
  function ApplyAll(b: BalanceMap, cs: seq<Charge>): (r: Option<BalanceMap>)
    ensures r.Some? ==> r.value.Keys == b.Keys
    decreases |cs|
  {
    if cs == [] then Some(b)
    else
      match ApplyCharge(b, cs[0])
      case None => None
      case Some(b') => ApplyAll(b', cs[1..])
  }

  /**
   * What `get_balances` returns for a group with these members and expenses
   * (`None`: it raises `KeyError`): when it returns, there is one entry per
   * member and no other.
   */
  function BalancesOf(memberIds: seq<int>, charges: seq<Charge>): (r: Option<BalanceMap>)
    ensures r.Some? ==> r.value.Keys == set m | m in memberIds
  {
    ApplyAll(Initial(memberIds), charges)
  }

  /**
   * The nested loops of `get_balances`, updating the balance dictionary in
   * place; proved to compute `BalancesOf`.
   */
  method GetBalances(memberIds: seq<int>, charges: seq<Charge>) returns (result: Option<BalanceMap>)
    ensures result == BalancesOf(memberIds, charges)
  {
    var balances := map m | m in memberIds :: 0.0;
    var i := 0;
    while i < |charges|
      invariant 0 <= i <= |charges|
      invariant BalancesOf(memberIds, charges) == ApplyAll(balances, charges[i..])
    {
      var c := charges[i];
      assert charges[i..] == [c] + charges[i + 1..];
      if |c.participants| > 0 {
        var split := c.amount / |c.participants| as real;
        ghost var before := balances;
        var k := 0;
        while k < |c.participants|
          invariant 0 <= k <= |c.participants|
          invariant DebitAll(before, c.participants, split) == DebitAll(balances, c.participants[k..], split)
        {
          var m := c.participants[k];
          assert c.participants[k..] == [m] + c.participants[k + 1..];
          if m !in balances {
            return None;
          }
          balances := balances[m := balances[m] - split];
          k := k + 1;
        }
        assert DebitAll(before, c.participants, split) == Some(balances);
        if c.payer !in balances {
          return None;
        }
        balances := balances[c.payer := balances[c.payer] + c.amount];
      }
      i := i + 1;
    }
    assert charges[i..] == [];
    return Some(balances);
  }

  // ---------------------------------------------------------------- what a single expense does

  /** The sum of the balances of the listed keys (a key without an entry counts as zero). */
  function SumOver(b: BalanceMap, keys: seq<int>): real {
    if keys == [] then 0.0 else (if keys[0] in b then b[keys[0]] else 0.0) + SumOver(b, keys[1..])
  }

  /** Debiting fails exactly when some participant has no balance entry. */
  lemma {:induction false} DebitAllFails(b: BalanceMap, ps: seq<int>, share: real)
    ensures DebitAll(b, ps, share).Some? ==> forall i :: 0 <= i < |ps| ==> ps[i] in b
    ensures (forall i :: 0 <= i < |ps| ==> ps[i] in b) ==> DebitAll(b, ps, share).Some?
    decreases |ps|
  {
    if ps != [] {
      if ps[0] in b {
        var b1 := b[ps[0] := b[ps[0]] - share];
        DebitAllFails(b1, ps[1..], share);
        assert b1.Keys == b.Keys;
        assert forall i :: 0 < i < |ps| ==> ps[i] == ps[1..][i - 1];
      }
    }
  }

  /** The total taken from `k` by debiting `share` once per occurrence of `k` in `ps`. */
  function Debited(ps: seq<int>, k: int, share: real): real {
    if ps == [] then 0.0 else (if ps[0] == k then share else 0.0) + Debited(ps[1..], k, share)
  }

  /** The total debited is one share per occurrence. */
  lemma {:induction false} DebitedIsShareTimesCount(ps: seq<int>, k: int, share: real)
    ensures Debited(ps, k, share) == share * Count(ps, k) as real
    decreases |ps|
  {
    if ps != [] {
      DebitedIsShareTimesCount(ps[1..], k, share);
      var n := Count(ps[1..], k) as real;
      if ps[0] == k {
        assert share * (n + 1.0) == share * n + share;
      }
    }
  }

  /** When debiting succeeds, it keeps the same keys and lowers each entry by what was debited from it. */
  lemma {:induction false} DebitAllValues(b: BalanceMap, ps: seq<int>, share: real)
    requires DebitAll(b, ps, share).Some?
    ensures var b' := DebitAll(b, ps, share).value;
      b'.Keys == b.Keys && forall k :: k in b ==> b'[k] == b[k] - Debited(ps, k, share)
    decreases |ps|
  {
    if ps != [] {
      var b1 := b[ps[0] := b[ps[0]] - share];
      DebitAllValues(b1, ps[1..], share);
    }
  }

  /**
   * Otherwise it changes each member's balance by the amount paid minus the
   * shares owed: the full amount to the payer, and one share per occurrence
   * to each participant, the payer included when listed. An expense without
   * participants changes nothing.
   */
  lemma ApplyChargeValues(b: BalanceMap, c: Charge)
    requires ApplyCharge(b, c).Some?
    ensures var b' := ApplyCharge(b, c).value;
      && b'.Keys == b.Keys
      && (c.participants == [] ==> b' == b)
      && (c.participants != [] ==> forall k :: k in b ==> b'[k] == b[k] + Effect(c, k))
  {
    if c.participants != [] {
      forall k | k in b
        ensures ApplyCharge(b, c).value[k] == b[k] + Effect(c, k)
      {
        ChargeEntry(b, c, k);
      }
    }
  }

  /** What one expense does to the balance of `k`: the amount when `k` paid, less one share per time `k` is listed. */
  function Effect(c: Charge, k: int): real
    requires c.participants != []
  {
    (if k == c.payer then c.amount else 0.0) - Share(c) * multiset(c.participants)[k] as real
  }

  /** The balance of one key after an expense with participants. */
  lemma ChargeEntry(b: BalanceMap, c: Charge, k: int)
    requires c.participants != [] && ApplyCharge(b, c).Some? && k in b
    ensures ApplyCharge(b, c).value[k] == b[k] + Effect(c, k)
  {
    ApplyChargeUnfold(b, c);
    CreditedEntry(b, c.participants, Share(c), c.payer, c.amount, k);
  }

  /** Debiting one share per occurrence and crediting the payer, for one key. */
  lemma CreditedEntry(b: BalanceMap, ps: seq<int>, share: real, payer: int, amount: real, k: int)
    requires DebitAll(b, ps, share).Some? && payer in DebitAll(b, ps, share).value && k in b
    ensures var debited := DebitAll(b, ps, share).value;
      && k in debited
      && debited[payer := debited[payer] + amount][k] == b[k] + ((if k == payer then amount else 0.0) - share * multiset(ps)[k] as real)
  {
    DebitAllValues(b, ps, share);
    DebitedIsShareTimesMultiplicity(ps, k, share);
  }

  /** What is debited from `k` is one share per occurrence of `k` in the multiset of participants. */
  lemma DebitedIsShareTimesMultiplicity(ps: seq<int>, k: int, share: real)
    ensures Debited(ps, k, share) == share * multiset(ps)[k] as real
  {
    DebitedIsShareTimesCount(ps, k, share);
    CountIsMultiplicity(ps, k);
  }

  /** A successful expense with participants is the debit of every participant followed by the payer's credit. */
  lemma ApplyChargeUnfold(b: BalanceMap, c: Charge)
    requires c.participants != [] && ApplyCharge(b, c).Some?
    ensures DebitAll(b, c.participants, Share(c)).Some?
    ensures var debited := DebitAll(b, c.participants, Share(c)).value;
      c.payer in debited && ApplyCharge(b, c).value == debited[c.payer := debited[c.payer] + c.amount]
  {
  }

  // ---------------------------------------------------------------- conservation

  /** Changing one entry of a listed key changes the sum by exactly the difference. */
  lemma {:induction false} SumOverUpdate(b: BalanceMap, keys: seq<int>, k: int, v: real)
    requires NoDup(keys) && k in b
    ensures SumOver(b[k := v], keys) == SumOver(b, keys) + (if k in keys then v - b[k] else 0.0)
    decreases |keys|
  {
    if keys != [] {
      NoDupTail(keys);
      SumOverUpdate(b, keys[1..], k, v);
      assert k in keys <==> k == keys[0] || k in keys[1..];
    }
  }

  /** The zero balances of the members sum to zero. */
  lemma {:induction false} SumOverZero(b: BalanceMap, keys: seq<int>)
    requires forall k :: k in b ==> b[k] == 0.0
    ensures SumOver(b, keys) == 0.0
    decreases |keys|
  {
    if keys != [] {
      SumOverZero(b, keys[1..]);
    }
  }

  /** Debiting every participant lowers the total by one share per participant. */
  lemma {:induction false} DebitAllSum(b: BalanceMap, ps: seq<int>, share: real, keys: seq<int>)
    requires NoDup(keys) && b.Keys == set k | k in keys
    requires DebitAll(b, ps, share).Some?
    ensures SumOver(DebitAll(b, ps, share).value, keys) == SumOver(b, keys) - share * |ps| as real
    decreases |ps|
  {
    if ps != [] {
      assert ps[0] in b;
      var b1 := b[ps[0] := b[ps[0]] - share];
      SumOverUpdate(b, keys, ps[0], b[ps[0]] - share);
      assert b1.Keys == b.Keys;
      DebitAllSum(b1, ps[1..], share, keys);
      assert share * |ps| as real == share * |ps[1..]| as real + share;
    }
  }

  /** One expense leaves the sum of all balances unchanged: the shares add up to the amount credited. */
  lemma {:induction false} ApplyChargeSum(b: BalanceMap, c: Charge, keys: seq<int>)
    requires NoDup(keys) && b.Keys == set k | k in keys
    requires ApplyCharge(b, c).Some?
    ensures ApplyCharge(b, c).value.Keys == b.Keys
    ensures SumOver(ApplyCharge(b, c).value, keys) == SumOver(b, keys)
  {
    if c.participants != [] {
      ApplyChargeUnfold(b, c);
      ShareTimesCount(c);
      CreditedSum(b, c.participants, Share(c), c.payer, c.amount, keys);
    }
  }

  /** Debiting a share per participant and crediting the payer their product keeps the sum. */
  lemma CreditedSum(b: BalanceMap, ps: seq<int>, share: real, payer: int, amount: real, keys: seq<int>)
    requires NoDup(keys) && b.Keys == set k | k in keys
    requires DebitAll(b, ps, share).Some? && payer in DebitAll(b, ps, share).value
    requires share * |ps| as real == amount
    ensures var debited := DebitAll(b, ps, share).value;
      SumOver(debited[payer := debited[payer] + amount], keys) == SumOver(b, keys)
  {
    var debited := DebitAll(b, ps, share).value;
    DebitAllValues(b, ps, share);
    DebitAllSum(b, ps, share, keys);
    assert payer in keys;
    SumOverUpdate(debited, keys, payer, debited[payer] + amount);
  }

  /** The shares of an expense add back up to its amount. */
  lemma ShareTimesCount(c: Charge)
    requires c.participants != []
    ensures Share(c) * |c.participants| as real == c.amount
  {
  }

  lemma {:induction false} ApplyAllSum(b: BalanceMap, cs: seq<Charge>, keys: seq<int>)
    requires NoDup(keys) && b.Keys == set k | k in keys
    requires ApplyAll(b, cs).Some?
    ensures ApplyAll(b, cs).value.Keys == b.Keys
    ensures SumOver(ApplyAll(b, cs).value, keys) == SumOver(b, keys)
    decreases |cs|
  {
    if cs != [] {
      ApplyChargeSum(b, cs[0], keys);
      ApplyAllSum(ApplyCharge(b, cs[0]).value, cs[1..], keys);
    }
  }

  /**
   * The accounting identity: whenever `get_balances` returns, it has an entry
   * for exactly the members and those entries sum to zero.
   */
  lemma BalancesSumToZero(memberIds: seq<int>, charges: seq<Charge>)
    requires NoDup(memberIds)
    requires BalancesOf(memberIds, charges).Some?
    ensures BalancesOf(memberIds, charges).value.Keys == set m | m in memberIds
    ensures SumOver(BalancesOf(memberIds, charges).value, memberIds) == 0.0
  {
    SumOverZero(Initial(memberIds), memberIds);
    ApplyAllSum(Initial(memberIds), charges, memberIds);
  }

  /**
   * The fold over the expenses raises `KeyError` exactly when some expense
   * makes a failing lookup; the keys never change, so each expense is judged
   * against the starting keys (for `get_balances`, the members).
   */
  lemma {:induction false} BalancesDefined(b: BalanceMap, charges: seq<Charge>)
    ensures ApplyAll(b, charges).Some? <==> forall i :: 0 <= i < |charges| ==> LookupsSucceed(b, charges[i])
    decreases |charges|
  {
    if charges != [] {
      var c := charges[0];
      if ApplyCharge(b, c).Some? {
        var b' := ApplyCharge(b, c).value;
        ApplyChargeValues(b, c);
        BalancesDefined(b', charges[1..]);
        assert forall i :: 0 < i < |charges| ==> charges[i] == charges[1..][i - 1];
        assert forall c' :: LookupsSucceed(b', c') == LookupsSucceed(b, c');
      }
    }
  }

  /** The example of a dinner for three paid by the first: the payer is owed two thirds, the others owe a third each. */
  lemma DinnerExample(a: int, b: int, c: int)
    requires a != b && b != c && a != c
    ensures BalancesOf([a, b, c], [Charge(100.0, a, [a, b, c])])
      == Some(map[a := 200.0 / 3.0, b := -100.0 / 3.0, c := -100.0 / 3.0])
  {
    var dinner := Charge(100.0, a, [a, b, c]);
    var third := 100.0 / 3.0;
    var init := Initial([a, b, c]);
    assert init == map[a := 0.0, b := 0.0, c := 0.0];
    assert Share(dinner) == third;
    var b1 := init[a := -third];
    var b2 := b1[b := -third];
    var b3 := b2[c := -third];
    assert DebitAll(b3, [], third) == Some(b3);
    assert DebitAll(b2, [c], third) == Some(b3);
    assert DebitAll(b1, [b, c], third) == Some(b3) by { assert [b, c][1..] == [c]; }
    assert DebitAll(init, [a, b, c], third) == Some(b3) by { assert [a, b, c][1..] == [b, c]; }
    assert ApplyCharge(init, dinner) == Some(b3[a := -third + 100.0]);
    assert ApplyAll(b3[a := -third + 100.0], [dinner][1..]) == Some(b3[a := -third + 100.0]);
    assert ApplyAll(init, [dinner]) == Some(b3[a := -third + 100.0]);
    assert b3[a := -third + 100.0] == map[a := 200.0 / 3.0, b := -100.0 / 3.0, c := -100.0 / 3.0];
  }
}
