/** When transactions and calls go through, and exactly what they then do: for every chain, with the
    amounts written out. The laws of KCoinSolvency say what all of them keep. */
module KCoinPayable {
  import opened Common
  import opened Ledger
  import opened KCoinVault
  import opened KCoinSolvency

  lemma OneTransaction(v: Vault, c: Chain, t: Txn)
    ensures var r, e := EvalGroup(v, c, [t]), Exec(v, c, None, t);
      && (r.Done? <==> e.Done? && forall a :: a in TouchedBy(v, t) ==> Sufficient(e.value.chain.ledger, a))
      && (r.Done? ==> r.value == Progress(e.value.chain, [e.value.output]))
  {
    hide Exec, TouchedBy, Sufficient;
    assert [t][..0] == [];
    assert Touched(v, [t]) == {} + TouchedBy(v, t);
    assert ExecAll(v, c, []) == Done(Progress(c, [])) && Last([]) == None;
    if Exec(v, c, None, t).Done? {
      assert [] + [Exec(v, c, None, t).value.output] == [Exec(v, c, None, t).value.output];
    }
  }

  /** A payment goes through exactly when both accounts exist and neither is below its minimum balance
      afterwards. Only the two balances change. */
  lemma PaymentPayable(v: Vault, c: Chain, from: Address, to: Address, amount: nat)
    requires from != to && c.ledger.balances.Keys == c.ledger.minBalances.Keys
    ensures var l, r := c.ledger, EvalGroup(v, c, [Payment(from, to, amount)]);
      && (r.Done? <==>
            && from in l.balances && to in l.balances
            && l.minBalances[from] + amount <= l.balances[from]
            && l.minBalances[to] <= l.balances[to] + amount)
      && (r.Done? ==> r.value == Progress(
            Chain(l.(balances := l.balances[from := l.balances[from] - amount][to := l.balances[to] + amount]),
                  c.globals), [0]))
  {
    hide EvalGroup;
    var t := Payment(from, to, amount);
    OneTransaction(v, c, t);
    assert TouchedBy(v, t) == {from, to};
  }

  /** A transfer between accounts that are opted in. The receiver is not charged a minimum balance. */
  lemma TransferPayable(v: Vault, c: Chain, id: nat, from: Address, to: Address, amount: nat)
    requires from != to
    ensures var l, r := c.ledger, EvalGroup(v, c, [AssetTransfer(from, id, to, amount)]);
      && (r.Done? <==>
            && id in l.assets && from in l.assets[id].holdings && to in l.assets[id].holdings
            && amount <= l.assets[id].holdings[from] && Sufficient(l, from))
      && (r.Done? ==>
            var h := l.assets[id].holdings;
            r.value == Progress(Chain(l.(assets := l.assets[id := l.assets[id].(
                holdings := h[from := h[from] - amount][to := h[to] + amount])]), c.globals), [0]))
  {
    hide EvalGroup;
    var t := AssetTransfer(from, id, to, amount);
    OneTransaction(v, c, t);
    assert TouchedBy(v, t) == {from};
  }

  /** A transfer to oneself. Before the account is opted in, only one of nothing goes through: that is the
      opt-in, and it costs 100000 microalgos of minimum balance. */
  lemma OptInPayable(v: Vault, c: Chain, id: nat, a: Address, amount: nat)
    requires id in c.ledger.assets
    ensures var l, r := c.ledger, EvalGroup(v, c, [AssetTransfer(a, id, a, amount)]);
      var h := l.assets[id].holdings;
      && (a in h ==> (r.Done? <==> amount <= h[a] && Sufficient(l, a)))
      && (a in h && r.Done? ==> r.value == Progress(c, [0]))
      && (a !in h ==> (r.Done? <==>
            amount == 0 && a in l.balances && a in l.minBalances && l.minBalances[a] + 100_000 <= l.balances[a]))
      && (a !in h && r.Done? ==> r.value == Progress(
            Chain(l.(assets := l.assets[id := l.assets[id].(holdings := h[a := 0])],
                     minBalances := l.minBalances[a := l.minBalances[a] + 100_000]), c.globals), [0]))
  {
    hide EvalGroup;
    var t := AssetTransfer(a, id, a, amount);
    OneTransaction(v, c, t);
    assert TouchedBy(v, t) == {a};
    var l := c.ledger;
    var h := l.assets[id].holdings;
    if a in h && amount <= h[a] {
      assert h[a := h[a] - amount][a := h[a]] == h;
      assert l.assets[id := l.assets[id].(holdings := h)] == l.assets;
    }
  }

  /** A payment to oneself changes nothing, but one must have the amount. */
  lemma SelfPayment(v: Vault, c: Chain, a: Address, amount: nat)
    ensures var l, r := c.ledger, EvalGroup(v, c, [Payment(a, a, amount)]);
      && (r.Done? <==> a in l.balances && amount <= l.balances[a] && Sufficient(l, a))
      && (r.Done? ==> r.value == Progress(c, [0]))
  {
    hide EvalGroup;
    var t := Payment(a, a, amount);
    OneTransaction(v, c, t);
    assert TouchedBy(v, t) == {a};
    var b := c.ledger.balances;
    if a in b && amount <= b[a] {
      assert b[a := b[a] - amount][a := b[a]] == b;
    }
  }

  /** So does the creation of an asset, which its creator then holds. */
  lemma CreatePayable(v: Vault, c: Chain, creator: Address, total: nat)
    ensures var l, r := c.ledger, EvalGroup(v, c, [AssetCreate(creator, total)]);
      && (r.Done? <==>
            && creator in l.balances && creator in l.minBalances
            && l.minBalances[creator] + 100_000 <= l.balances[creator])
      && (r.Done? ==> r.value == Progress(
            Chain(l.(assets := l.assets[l.nextAssetId := Asset(creator, total, map[creator := total])],
                     minBalances := l.minBalances[creator := l.minBalances[creator] + 100_000],
                     nextAssetId := l.nextAssetId + 1), c.globals), [0]))
  {
    hide EvalGroup;
    var t := AssetCreate(creator, total);
    OneTransaction(v, c, t);
    assert TouchedBy(v, t) == {creator};
  }

  /** `init_asset` goes through exactly for the creator, when the vault can bear the minimum balance of
      one more asset. It creates a million units, all in the vault, and the exchange rate is 2. */
  lemma InitPayable(v: Vault, c: Chain, sender: Address)
    requires sender != v.app
    ensures var l, r := c.ledger, EvalGroup(v, c, [InitAsset(sender)]);
      && (r.Done? <==>
            && sender == v.creator && Sufficient(l, sender)
            && v.app in l.balances && v.app in l.minBalances && l.minBalances[v.app] + 100_000 <= l.balances[v.app])
      && (r.Done? ==> r.value == Progress(
            Chain(l.(assets := l.assets[l.nextAssetId := Asset(v.app, 1_000_000, map[v.app := 1_000_000])],
                     minBalances := l.minBalances[v.app := l.minBalances[v.app] + 100_000],
                     nextAssetId := l.nextAssetId + 1),
                  c.globals["asset_id" := l.nextAssetId]["exchange_rate" := 2]), [l.nextAssetId]))
  {
    hide EvalGroup;
    var t := InitAsset(sender);
    OneTransaction(v, c, t);
    assert TouchedBy(v, t) == {sender, v.app};
  }

  /** The sender, the receiver of a payment, and the vault in a call: their minimum balances count. */
  lemma TouchedIs(v: Vault, t: Txn, a: Address)
    ensures a in TouchedBy(v, t) <==>
      a == t.sender || (t.Payment? && a == t.receiver) || ((t.InitAsset? || t.Mint? || t.Burn?) && a == v.app)
  {
  }

  /** In every state that the invariant describes, a mint goes through exactly when an asset has been
      initialised, the caller has opted in to it, the payer, who may be someone else, can pay, and the
      vault has enough coins left. */
  lemma MintPayable(v: Vault, funding: nat, c: Chain, payer: Address, caller: Address, amount: nat)
    requires Inv(v, funding, c, None) && HoldersFunded(c.ledger) && payer != v.app && caller != v.app
    ensures var l, id := c.ledger, GlobalGet(c.globals, "asset_id");
      EvalGroup(v, c, [Payment(payer, v.app, amount), Mint(caller)]).Done? <==>
        && id != 0 && id in l.assets && v.app in l.assets[id].holdings && caller in l.assets[id].holdings
        && payer in l.balances && payer in l.minBalances && l.minBalances[payer] + amount <= l.balances[payer]
        && amount / 2 <= l.assets[id].holdings[v.app]
  {
    hide Sum, Outstanding, Outside, OutsideByAsset;
    var l, id := c.ledger, GlobalGet(c.globals, "asset_id");
    var s, t := Payment(payer, v.app, amount), Mint(caller);
    TwoTransactions(v, c, s, t);
    assert Touched(v, [s, t]) == {payer, caller, v.app};
    if id != 0 {
      assert Created(v, l, id);
      VaultFunded(v, l, id);
      if caller in l.assets[id].holdings { assert OptedIn(l, caller); }
    }
  }

  /** The same in every state that a run can reach. */
  lemma MintPayableAfterRun(v: Vault, c: Chain, groups: seq<seq<Txn>>, payer: Address, caller: Address, amount: nat)
    requires Start(v, c) && AllSigned(v, groups) && payer != v.app && caller != v.app
    ensures var now := Run(v, c, groups);
      var l, id := now.ledger, GlobalGet(now.globals, "asset_id");
      EvalGroup(v, now, [Payment(payer, v.app, amount), Mint(caller)]).Done? <==>
        && id != 0 && id in l.assets && v.app in l.assets[id].holdings && caller in l.assets[id].holdings
        && payer in l.balances && payer in l.minBalances && l.minBalances[payer] + amount <= l.balances[payer]
        && amount / 2 <= l.assets[id].holdings[v.app]
  {
    hide Run, Inv, EvalGroup;
    RunKeeps(v, c, groups);
    MintPayable(v, c.ledger.balances[v.app], Run(v, c, groups), payer, caller, amount);
  }

  /** A burn may be called by someone else than who sends the coins; the caller is paid. */
  lemma BurnPayableBy(v: Vault, funding: nat, c: Chain, holder: Address, id: nat, coins: nat, caller: Address)
    requires Inv(v, funding, c, None) && HoldersFunded(c.ledger)
    requires Created(v, c.ledger, id) && holder != v.app && caller != v.app && caller != holder
    requires holder in c.ledger.assets[id].holdings && coins <= c.ledger.assets[id].holdings[holder]
    ensures var r := EvalGroup(v, c, [AssetTransfer(holder, id, v.app, coins), Burn(caller)]);
      var balances, minBalances := c.ledger.balances, c.ledger.minBalances;
      && v.app in balances && v.app in minBalances && balances.Keys == minBalances.Keys
      && (r.Done? <==>
            && caller in balances && minBalances[caller] <= balances[caller] + 2 * coins
            && minBalances[v.app] + 2 * coins <= balances[v.app])
      && (r.Done? ==>
            && r.value.outputs == [0, 2 * coins]
            && r.value.chain.ledger.balances == balances[caller := balances[caller] + 2 * coins]
                                                        [v.app := balances[v.app] - 2 * coins])
  {
    hide Sum, Outstanding;
    var l := c.ledger;
    OutsideCovers(v, l, id, holder);
    assert AssetOk(l, id);
    assert OptedIn(l, holder);
    var s, t := AssetTransfer(holder, id, v.app, coins), Burn(caller);
    TwoTransactions(v, c, s, t);
    assert Touched(v, [s, t]) == {holder, caller, v.app};
  }

  /** A call needs the right transaction before it, to the vault. A mint also needs an asset and a rate
      that is not zero, and a burn a payout below 2^64. */
  lemma CallsNeed(v: Vault, c: Chain, prev: Option<Txn>, sender: Address)
    ensures Exec(v, c, prev, Mint(sender)).Done? ==>
      && prev.Some? && prev.value.Payment? && prev.value.receiver == v.app
      && GlobalGet(c.globals, "asset_id") != 0 && GlobalGet(c.globals, "exchange_rate") != 0
    ensures Exec(v, c, prev, Burn(sender)).Done? ==>
      && prev.Some? && prev.value.AssetTransfer? && prev.value.receiver == v.app
      && prev.value.amount * GlobalGet(c.globals, "exchange_rate") < 0x1_0000_0000_0000_0000
  {
  }
}
