/** The part of the Algorand ledger that the K-Coin vault lives on: Algo balances, minimum balances
    and asset holdings, with the panics of lib/include/kframework/avm/avm-execution.md. No fees. */
module Ledger {

  type Address = string

  const MIN_BALANCE := 100_000

  /** `holdings` has an entry, possibly 0, for every account that is opted in. */
  datatype Asset = Asset(creator: Address, total: nat, holdings: map<Address, nat>)

  datatype Ledger = Ledger(
    balances: map<Address, nat>,
    minBalances: map<Address, nat>,
    assets: map<nat, Asset>,
    nextAssetId: nat)

  datatype Result<T> = Done(value: T) | Panic

  // ----- sums over accounts -----

  ghost function Sum<K>(m: map<K, nat>): nat {
    if m == map[] then 0 else
      var k :| k in m;
      m[k] + Sum(m - {k})
  }

  lemma {:induction false} SumWithout<K>(m: map<K, nat>, k: K)
    requires k in m
    ensures Sum(m) == m[k] + Sum(m - {k})
    decreases m.Keys
  {
    var j :| j in m && Sum(m) == m[j] + Sum(m - {j});
    if j != k {
      SumWithout(m - {j}, k);
      SumWithout(m - {k}, j);
      assert m - {j} - {k} == m - {k} - {j};
    }
  }

  lemma SumUpdate<K>(m: map<K, nat>, k: K, v: nat)
    ensures Sum(m[k := v]) == Sum(m) + v - (if k in m then m[k] else 0)
  {
    hide Sum;
    SumWithout(m[k := v], k);
    assert m[k := v] - {k} == m - {k};
    if k in m {
      SumWithout(m, k);
    } else {
      assert m - {k} == m;
    }
  }

  lemma SumAtLeast<K>(m: map<K, nat>, j: K, k: K)
    requires j in m && k in m && j != k
    ensures m[j] + m[k] <= Sum(m)
  {
    hide Sum;
    SumWithout(m, j);
    SumWithout(m - {j}, k);
  }

  // ----- moving amounts between two entries -----

  /** `amount` leaves `from` and then reaches `to`; nothing moves when `from` has too little. */
  function Move(m: map<Address, nat>, from: Address, to: Address, amount: nat): (r: Result<map<Address, nat>>)
    requires from in m && to in m
    ensures r.Panic? <==> m[from] < amount
  {
    if m[from] < amount then Panic else
      var less := m[from := m[from] - amount];
      Done(less[to := less[to] + amount])
  }

  lemma MoveKeeps(m: map<Address, nat>, from: Address, to: Address, amount: nat)
    requires from in m && to in m && amount <= m[from]
    ensures var n := Move(m, from, to, amount).value;
      && n.Keys == m.Keys && Sum(n) == Sum(m)
      && (from == to ==> n == m)
      && (from != to ==> n[from] == m[from] - amount && n[to] == m[to] + amount)
      && forall a :: a in m && a != from && a != to ==> n[a] == m[a]
  {
    hide Sum;
    var less := m[from := m[from] - amount];
    SumUpdate(m, from, m[from] - amount);
    SumUpdate(less, to, less[to] + amount);
  }

  // ----- transactions -----

  /** avm-execution.md:344-357, 455-504 */
  function Pay(l: Ledger, from: Address, to: Address, amount: nat): Result<Ledger> {
    if from !in l.balances || to !in l.balances then Panic else
      match Move(l.balances, from, to, amount)
      case Panic => Panic
      case Done(balances) => Done(l.(balances := balances))
  }

  /** avm-execution.md:679-800: a transfer between opted-in accounts, or an opt-in, which is a
      transfer of zero to oneself. */
  function Transfer(l: Ledger, id: nat, from: Address, to: Address, amount: nat): Result<Ledger> {
    if id !in l.assets then Panic else
      var asset := l.assets[id];
      if from in asset.holdings && to in asset.holdings then
        match Move(asset.holdings, from, to, amount)
        case Panic => Panic
        case Done(holdings) => Done(l.(assets := l.assets[id := asset.(holdings := holdings)]))
      else if from == to && amount == 0 && from in l.minBalances then
        Done(l.(assets := l.assets[id := asset.(holdings := asset.holdings[from := 0])],
                minBalances := l.minBalances[from := l.minBalances[from] + MIN_BALANCE]))
      else Panic
  }

  /** avm-execution.md:520-575 */
  function CreateAsset(l: Ledger, creator: Address, total: nat): Result<Ledger> {
    if creator !in l.minBalances then Panic else
      Done(l.(assets := l.assets[l.nextAssetId := Asset(creator, total, map[creator := total])],
              minBalances := l.minBalances[creator := l.minBalances[creator] + MIN_BALANCE],
              nextAssetId := l.nextAssetId + 1))
  }

  // ----- well-formed ledgers -----

  ghost predicate AssetOk(l: Ledger, id: nat)
    requires id in l.assets
  {
    && 0 < id < l.nextAssetId
    && l.assets[id].creator in l.assets[id].holdings
    && l.assets[id].holdings.Keys <= l.balances.Keys
    && Sum(l.assets[id].holdings) == l.assets[id].total
  }

  /** Ids are fresh, holders are known, and every asset's units add up to its total. */
  ghost predicate WellFormed(l: Ledger) {
    && 0 < l.nextAssetId
    && l.balances.Keys == l.minBalances.Keys
    && forall id :: id in l.assets ==> AssetOk(l, id)
  }

  /** Assets are never removed, and keep their creator and total. */
  ghost predicate AssetsKept(l: Ledger, m: Ledger) {
    forall id :: id in l.assets ==>
      id in m.assets && m.assets[id].creator == l.assets[id].creator && m.assets[id].total == l.assets[id].total
  }

  ghost predicate OptedIn(l: Ledger, a: Address) {
    exists id :: id in l.assets && a in l.assets[id].holdings
  }

  /** What an account that a transaction does not touch keeps. */
  ghost predicate SameAccount(l: Ledger, m: Ledger, a: Address) {
    && (a in l.balances <==> a in m.balances)
    && (a in l.balances ==> l.balances[a] == m.balances[a])
    && (a in l.minBalances <==> a in m.minBalances)
    && (a in l.minBalances ==> l.minBalances[a] == m.minBalances[a])
    && (OptedIn(l, a) <==> OptedIn(m, a))
  }

  lemma PayKeeps(l: Ledger, from: Address, to: Address, amount: nat)
    requires WellFormed(l)
    requires Pay(l, from, to, amount).Done?
    ensures var m := Pay(l, from, to, amount).value;
      && WellFormed(m) && Sum(m.balances) == Sum(l.balances) && m.assets == l.assets
      && forall a :: a != from && a != to ==> SameAccount(l, m, a)
  {
    hide Sum, Move;
    MoveKeeps(l.balances, from, to, amount);
    var m := Pay(l, from, to, amount).value;
    forall id | id in m.assets ensures AssetOk(m, id) {
      assert AssetOk(l, id);
    }
  }

  lemma TransferKeeps(l: Ledger, id: nat, from: Address, to: Address, amount: nat)
    requires WellFormed(l)
    requires Transfer(l, id, from, to, amount).Done?
    ensures var m := Transfer(l, id, from, to, amount).value;
      && WellFormed(m) && m.balances == l.balances && AssetsKept(l, m)
      && forall a :: a != from ==> SameAccount(l, m, a)
  {
    hide Sum, Move;
    var asset := l.assets[id];
    var m := Transfer(l, id, from, to, amount).value;
    assert AssetOk(l, id);
    if from in asset.holdings && to in asset.holdings {
      MoveKeeps(asset.holdings, from, to, amount);
    } else {
      SumUpdate(asset.holdings, from, 0);
    }
    forall i | i in m.assets ensures AssetOk(m, i) {
      assert AssetOk(l, i);
    }
    forall a | a != from ensures SameAccount(l, m, a) {
      assert OptedIn(l, a) <==> OptedIn(m, a) by {
        assert forall i :: i in l.assets ==> (a in l.assets[i].holdings <==> a in m.assets[i].holdings);
      }
    }
  }

  lemma CreateAssetKeeps(l: Ledger, creator: Address, total: nat)
    requires WellFormed(l)
    requires CreateAsset(l, creator, total).Done?
    ensures var m := CreateAsset(l, creator, total).value;
      && WellFormed(m) && m.balances == l.balances && AssetsKept(l, m)
      && l.nextAssetId !in l.assets && l.nextAssetId in m.assets
      && m.assets[l.nextAssetId].holdings == map[creator := total]
      && m.assets == l.assets[l.nextAssetId := m.assets[l.nextAssetId]]
      && forall a :: a != creator ==> SameAccount(l, m, a)
  {
    hide Sum;
    var m := CreateAsset(l, creator, total).value;
    var id := l.nextAssetId;
    assert id !in l.assets by {
      assert id in l.assets ==> AssetOk(l, id);
    }
    SumUpdate(map[], creator, total);
    SumNothing<Address>();
    assert map[][creator := total] == map[creator := total];
    forall i | i in m.assets ensures AssetOk(m, i) {
      assert i in l.assets ==> AssetOk(l, i);
    }
    forall a | a != creator ensures SameAccount(l, m, a) {
      assert forall i :: i in l.assets ==> (a in l.assets[i].holdings <==> a in m.assets[i].holdings);
    }
  }

  lemma SumNothing<K>()
    ensures Sum<K>(map[]) == 0
  {
  }
}
