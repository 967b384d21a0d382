/** What every run of the K-Coin vault keeps: conservation, solvency, and that every coin can be
    burned. Runs are arbitrary sequences of arbitrary atomic groups sent by anyone but the vault. */
module KCoinSolvency {
  import opened Common
  import opened Ledger
  import opened KCoinVault
  import opened DivMod

  // ----- the invariant -----

  ghost predicate Created(v: Vault, l: Ledger, id: nat) {
    id in l.assets && l.assets[id].creator == v.app
  }

  /** The units of one vault-created asset that are not in the vault. */
  ghost function Outside(v: Vault, asset: Asset): nat {
    if v.app in asset.holdings && asset.holdings[v.app] <= asset.total
    then asset.total - asset.holdings[v.app] else asset.total
  }

  ghost function OutsideByAsset(v: Vault, l: Ledger): map<nat, nat> {
    map id | id in l.assets && l.assets[id].creator == v.app :: Outside(v, l.assets[id])
  }

  /** The units of all vault-created assets, however many times `init_asset` ran, held by others. */
  ghost function Outstanding(v: Vault, l: Ledger): nat {
    Sum(OutsideByAsset(v, l))
  }

  /** The vault never opts in: it holds an asset exactly when it created it. */
  ghost predicate HoldsOwn(v: Vault, l: Ledger) {
    forall id :: id in l.assets ==>
      && (v.app in l.assets[id].holdings <==> l.assets[id].creator == v.app)
      && (l.assets[id].creator == v.app ==> l.assets[id].holdings[v.app] <= l.assets[id].total == ASSET_TOTAL)
  }

  ghost predicate GlobalsOk(v: Vault, c: Chain) {
    var id, rate := GlobalGet(c.globals, "asset_id"), GlobalGet(c.globals, "exchange_rate");
    if id == 0 then forall i :: !Created(v, c.ledger, i)
    else rate == INITIAL_EXCHANGE_RATE && Created(v, c.ledger, id)
  }

  /** What the transaction just executed has put aside for a call that uses it. */
  ghost function Credit(v: Vault, prev: Option<Txn>): nat {
    match prev
    case Some(Payment(_, receiver, amount)) => if receiver == v.app then amount else 0
    case Some(AssetTransfer(_, _, receiver, amount)) =>
      if receiver == v.app then INITIAL_EXCHANGE_RATE * amount else 0
    case _ => 0
  }

  ghost predicate PrevOk(v: Vault, c: Chain, prev: Option<Txn>) {
    match prev
    case Some(AssetTransfer(_, id, receiver, _)) => receiver == v.app ==> Created(v, c.ledger, id)
    case _ => true
  }

  ghost predicate Solvent(v: Vault, funding: nat, l: Ledger, credit: nat) {
    && v.app in l.balances
    && funding + INITIAL_EXCHANGE_RATE * Outstanding(v, l) + credit <= l.balances[v.app]
  }

  /** Between two transactions of a group; `prev` is the one before. */
  ghost predicate Inv(v: Vault, funding: nat, c: Chain, prev: Option<Txn>) {
    && WellFormed(c.ledger)
    && HoldsOwn(v, c.ledger)
    && GlobalsOk(v, c)
    && PrevOk(v, c, prev)
    && Solvent(v, funding, c.ledger, Credit(v, prev))
  }

  /** Nobody signs for the vault: transactions in a group come from other accounts. */
  ghost predicate Signed(v: Vault, group: seq<Txn>) {
    forall i :: 0 <= i < |group| ==> group[i].sender != v.app
  }

  // ----- how the outstanding units change -----

  lemma OutstandingUpdate(v: Vault, l: Ledger, m: Ledger, id: nat)
    requires Created(v, m, id)
    requires m.assets == l.assets[id := m.assets[id]]
    requires id in l.assets ==> Created(v, l, id)
    ensures Outstanding(v, m) == Outstanding(v, l) + Outside(v, m.assets[id])
                               - (if id in l.assets then Outside(v, l.assets[id]) else 0)
  {
    hide Sum;
    assert OutsideByAsset(v, m) == OutsideByAsset(v, l)[id := Outside(v, m.assets[id])];
    SumUpdate(OutsideByAsset(v, l), id, Outside(v, m.assets[id]));
  }

  lemma PaySolvent(v: Vault, funding: nat, l: Ledger, from: Address, to: Address, amount: nat, slack: nat)
    requires WellFormed(l) && HoldsOwn(v, l)
    requires Pay(l, from, to, amount).Done?
    requires Solvent(v, funding, l, slack)
    requires from == v.app ==> amount <= slack
    ensures var m := Pay(l, from, to, amount).value;
      && WellFormed(m) && HoldsOwn(v, m)
      && Solvent(v, funding, m, if from == v.app then 0 else if to == v.app then slack + amount else slack)
  {
  }

  /** A transfer by others returns units to the vault or leaves the vault's holdings alone. */
  lemma UserTransferSolvent(v: Vault, funding: nat, l: Ledger, id: nat, from: Address, to: Address, amount: nat)
    requires WellFormed(l) && HoldsOwn(v, l)
    requires Transfer(l, id, from, to, amount).Done?
    requires Solvent(v, funding, l, 0)
    requires from != v.app
    ensures var m := Transfer(l, id, from, to, amount).value;
      && WellFormed(m) && HoldsOwn(v, m) && AssetsKept(l, m)
      && (to == v.app ==> Created(v, m, id))
      && Solvent(v, funding, m, if to == v.app then INITIAL_EXCHANGE_RATE * amount else 0)
  {
    hide Sum, Move, Outside, OutsideByAsset;
    TransferKeeps(l, id, from, to, amount);
    var m := Transfer(l, id, from, to, amount).value;
    assert AssetOk(l, id);
    if Created(v, l, id) {
      OutstandingUpdate(v, l, m, id);
      UserTransferOutside(v, l, id, from, to, amount);
    } else {
      var holdings := l.assets[id].holdings;
      if from in holdings && to in holdings {
        MoveKeeps(holdings, from, to, amount);
      }
      OutsideSame(v, l, m, id);
    }
  }

  lemma UserTransferOutside(v: Vault, l: Ledger, id: nat, from: Address, to: Address, amount: nat)
    requires WellFormed(l) && HoldsOwn(v, l) && Created(v, l, id)
    requires Transfer(l, id, from, to, amount).Done?
    requires from != v.app
    ensures var asset, asset' := l.assets[id], Transfer(l, id, from, to, amount).value.assets[id];
      && asset'.creator == v.app && v.app in asset'.holdings
      && asset'.holdings[v.app] <= asset'.total == asset.total
      && (to == v.app ==> from in asset.holdings)
      && Outside(v, asset') == Outside(v, asset) - (if to == v.app then amount else 0)
  {
    hide Sum, Move;
    var asset := l.assets[id];
    assert AssetOk(l, id);
    if from in asset.holdings && to in asset.holdings {
      MoveKeeps(asset.holdings, from, to, amount);
      if to == v.app {
        SumAtLeast(asset.holdings, from, to);
      }
    }
  }

  lemma OutsideSame(v: Vault, l: Ledger, m: Ledger, id: nat)
    requires id in l.assets && !Created(v, l, id) && !Created(v, m, id)
    requires id in m.assets && m.assets == l.assets[id := m.assets[id]]
    ensures OutsideByAsset(v, m) == OutsideByAsset(v, l)
  {
  }

  /** Coins that the vault sends out are covered by `slack`. */
  lemma VaultTransferSolvent(v: Vault, funding: nat, l: Ledger, id: nat, to: Address, coins: nat, slack: nat)
    requires WellFormed(l) && HoldsOwn(v, l)
    requires Created(v, l, id) && to != v.app
    requires Transfer(l, id, v.app, to, coins).Done?
    requires Solvent(v, funding, l, slack) && INITIAL_EXCHANGE_RATE * coins <= slack
    ensures var m := Transfer(l, id, v.app, to, coins).value;
      && WellFormed(m) && HoldsOwn(v, m) && AssetsKept(l, m)
      && Solvent(v, funding, m, 0)
  {
    hide Sum, Move;
    TransferKeeps(l, id, v.app, to, coins);
    var m := Transfer(l, id, v.app, to, coins).value;
    assert AssetOk(l, id);
    MoveKeeps(l.assets[id].holdings, v.app, to, coins);
    OutstandingUpdate(v, l, m, id);
  }

  lemma CreateSolvent(v: Vault, funding: nat, l: Ledger, creator: Address, total: nat)
    requires WellFormed(l) && HoldsOwn(v, l)
    requires CreateAsset(l, creator, total).Done?
    requires creator == v.app ==> total == ASSET_TOTAL
    requires Solvent(v, funding, l, 0)
    ensures var m := CreateAsset(l, creator, total).value;
      && WellFormed(m) && HoldsOwn(v, m) && AssetsKept(l, m)
      && m.assets.Keys == l.assets.Keys + {l.nextAssetId} && 0 < l.nextAssetId
      && (Created(v, m, l.nextAssetId) <==> creator == v.app)
      && Solvent(v, funding, m, 0)
  {
    hide Sum, Outside, OutsideByAsset;
    CreateAssetKeeps(l, creator, total);
    var m := CreateAsset(l, creator, total).value;
    var id := l.nextAssetId;
    if creator == v.app {
      OutstandingUpdate(v, l, m, id);
      NothingOutside(v, m.assets[id]);
    } else {
      ForeignAssetAdded(v, l, m, id);
    }
  }

  lemma NothingOutside(v: Vault, asset: Asset)
    requires v.app in asset.holdings && asset.holdings[v.app] == asset.total
    ensures Outside(v, asset) == 0
  {
  }

  lemma ForeignAssetAdded(v: Vault, l: Ledger, m: Ledger, id: nat)
    requires id !in l.assets && id in m.assets && !Created(v, m, id)
    requires m.assets == l.assets[id := m.assets[id]]
    ensures OutsideByAsset(v, m) == OutsideByAsset(v, l)
  {
    hide Outside;
  }

  // ----- one transaction -----

  lemma GlobalsKept(v: Vault, c: Chain, m: Ledger, added: nat)
    requires GlobalsOk(v, c)
    requires AssetsKept(c.ledger, m)
    requires m.assets.Keys <= c.ledger.assets.Keys + {added}
    requires Created(v, m, added) ==> Created(v, c.ledger, added)
    ensures GlobalsOk(v, Chain(m, c.globals))
  {
    forall i ensures Created(v, m, i) <==> Created(v, c.ledger, i) {
      if i in m.assets && i != added {
        assert i in c.ledger.assets;
      }
    }
  }

  lemma ExecKeeps(v: Vault, funding: nat, c: Chain, prev: Option<Txn>, t: Txn)
    requires Inv(v, funding, c, prev)
    requires t.sender != v.app
    requires Exec(v, c, prev, t).Done?
    ensures Inv(v, funding, Exec(v, c, prev, t).value.chain, Some(t))
  {
    hide Outstanding, WellFormed, Pay, Transfer, CreateAsset, HoldsOwn;
    var l := c.ledger;
    var m := Exec(v, c, prev, t).value.chain.ledger;
    match t {
      case Payment(sender, receiver, amount) =>
        PaySolvent(v, funding, l, sender, receiver, amount, 0);
        PayKeepsAssets(l, sender, receiver, amount);
        GlobalsKept(v, c, m, 0);
      case AssetTransfer(sender, id, receiver, amount) =>
        UserTransferSolvent(v, funding, l, id, sender, receiver, amount);
        TransferKeepsIds(l, id, sender, receiver, amount);
        GlobalsKept(v, c, m, id);
      case AssetCreate(sender, total) =>
        CreateSolvent(v, funding, l, sender, total);
        GlobalsKept(v, c, m, l.nextAssetId);
      case InitAsset(sender) =>
        CreateSolvent(v, funding, l, v.app, ASSET_TOTAL);
      case Mint(sender) =>
        var id := GlobalGet(c.globals, "asset_id");
        var coins := prev.value.amount / INITIAL_EXCHANGE_RATE;
        VaultTransferSolvent(v, funding, l, id, sender, coins, prev.value.amount);
        TransferKeepsIds(l, id, v.app, sender, coins);
        GlobalsKept(v, c, m, id);
      case Burn(sender) =>
        var algos := INITIAL_EXCHANGE_RATE * prev.value.amount;
        PaySolvent(v, funding, l, v.app, sender, algos, algos);
        PayKeepsAssets(l, v.app, sender, algos);
        GlobalsKept(v, c, m, 0);
    }
  }

  lemma PayKeepsAssets(l: Ledger, from: Address, to: Address, amount: nat)
    requires Pay(l, from, to, amount).Done?
    ensures Pay(l, from, to, amount).value.assets == l.assets
  {
  }

  lemma TransferKeepsIds(l: Ledger, id: nat, from: Address, to: Address, amount: nat)
    requires Transfer(l, id, from, to, amount).Done?
    ensures id in l.assets
    ensures var m := Transfer(l, id, from, to, amount).value;
      m.assets.Keys == l.assets.Keys && m.assets[id].creator == l.assets[id].creator
  {
  }

  /** One transaction conserves the Algos, and the total and creator of every asset. */
  lemma ExecConserves(v: Vault, c: Chain, prev: Option<Txn>, t: Txn)
    requires WellFormed(c.ledger)
    requires Exec(v, c, prev, t).Done?
    ensures var m := Exec(v, c, prev, t).value.chain.ledger;
      && WellFormed(m) && Sum(m.balances) == Sum(c.ledger.balances) && AssetsKept(c.ledger, m)
      && forall a :: a !in TouchedBy(v, t) ==> SameAccount(c.ledger, m, a)
  {
    hide Sum, WellFormed, Pay, Transfer, CreateAsset, SameAccount;
    var l := c.ledger;
    match t {
      case Payment(sender, receiver, amount) => PayKeeps(l, sender, receiver, amount);
      case AssetTransfer(sender, id, receiver, amount) => TransferKeeps(l, id, sender, receiver, amount);
      case AssetCreate(sender, total) => CreateAssetKeeps(l, sender, total);
      case InitAsset(sender) => CreateAssetKeeps(l, v.app, ASSET_TOTAL);
      case Mint(sender) =>
        var coins := AlgosToKCoin(prev.value.amount, c.globals).value;
        TransferKeeps(l, GlobalGet(c.globals, "asset_id"), v.app, sender, coins);
      case Burn(sender) =>
        var algos := KCoinToAlgos(prev.value.amount, c.globals).value;
        PayKeeps(l, v.app, sender, algos);
    }
  }

  // ----- groups and runs -----

  lemma {:induction false} ExecAllKeeps(v: Vault, funding: nat, c: Chain, group: seq<Txn>)
    requires Inv(v, funding, c, None)
    requires Signed(v, group)
    requires ExecAll(v, c, group).Done?
    ensures var m := ExecAll(v, c, group).value.chain;
      && Inv(v, funding, m, Last(group))
      && Sum(m.ledger.balances) == Sum(c.ledger.balances) && AssetsKept(c.ledger, m.ledger)
      && forall a :: a !in Touched(v, group) ==> SameAccount(c.ledger, m.ledger, a)
  {
    hide Inv, Exec, Sum, TouchedBy;
    if group != [] {
      var front, t := group[..|group| - 1], group[|group| - 1];
      assert front == group[..|front|];
      ExecAllKeeps(v, funding, c, front);
      var p := ExecAll(v, c, front).value.chain;
      ExecKeeps(v, funding, p, Last(front), t);
      InvWellFormed(v, funding, p, Last(front));
      ExecConserves(v, p, Last(front), t);
    }
  }

  lemma InvWellFormed(v: Vault, funding: nat, c: Chain, prev: Option<Txn>)
    requires Inv(v, funding, c, prev)
    ensures WellFormed(c.ledger)
    ensures Inv(v, funding, c, None)
  {
  }

  /** Whoever holds coins can be charged nothing more: the account meets its minimum balance. */
  ghost predicate HoldersFunded(l: Ledger) {
    forall a :: OptedIn(l, a) ==> Sufficient(l, a)
  }

  lemma SubmitKeeps(v: Vault, funding: nat, c: Chain, group: seq<Txn>)
    requires Inv(v, funding, c, None) && HoldersFunded(c.ledger)
    requires Signed(v, group)
    ensures var m := Submit(v, c, group);
      && Inv(v, funding, m, None) && HoldersFunded(m.ledger)
      && Sum(m.ledger.balances) == Sum(c.ledger.balances) && AssetsKept(c.ledger, m.ledger)
  {
    hide Inv, ExecAll, Touched, Sum, OptedIn;
    if EvalGroup(v, c, group).Done? {
      ExecAllKeeps(v, funding, c, group);
      var m := ExecAll(v, c, group).value.chain;
      InvWellFormed(v, funding, m, Last(group));
      forall a | OptedIn(m.ledger, a) ensures Sufficient(m.ledger, a) {
        if a !in Touched(v, group) {
          assert SameAccount(c.ledger, m.ledger, a);
        }
      }
    }
  }

  /** Before the first `init_asset`: the escrow account exists, has created and holds no asset. */
  ghost predicate Start(v: Vault, c: Chain) {
    && WellFormed(c.ledger) && HoldersFunded(c.ledger)
    && v.app in c.ledger.balances
    && GlobalGet(c.globals, "asset_id") == 0
    && forall id :: id in c.ledger.assets ==> v.app !in c.ledger.assets[id].holdings
  }

  lemma StartInv(v: Vault, c: Chain)
    requires Start(v, c)
    ensures Inv(v, c.ledger.balances[v.app], c, None)
  {
  }

  ghost predicate AllSigned(v: Vault, groups: seq<seq<Txn>>) {
    forall i :: 0 <= i < |groups| ==> Signed(v, groups[i])
  }

  lemma {:induction false} RunKeeps(v: Vault, c: Chain, groups: seq<seq<Txn>>)
    requires Start(v, c)
    requires AllSigned(v, groups)
    ensures var m := Run(v, c, groups);
      && Inv(v, c.ledger.balances[v.app], m, None) && HoldersFunded(m.ledger)
      && Sum(m.ledger.balances) == Sum(c.ledger.balances) && AssetsKept(c.ledger, m.ledger)
  {
    hide Inv, Submit, Sum, HoldersFunded;
    StartInv(v, c);
    if groups == [] {
      assert HoldersFunded(c.ledger);
    } else {
      var front := groups[..|groups| - 1];
      RunKeeps(v, c, front);
      SubmitKeeps(v, c.ledger.balances[v.app], Run(v, c, front), groups[|groups| - 1]);
    }
  }

  /** Solvency and conservation over every run: the vault still has its first funding and, on top of
      it, the exchange rate times the units of all its assets that others hold; no Algo and no unit
      appears or disappears; and the only assets the vault holds are its own. */
  lemma RunSolvent(v: Vault, c: Chain, groups: seq<seq<Txn>>)
    requires Start(v, c)
    requires AllSigned(v, groups)
    ensures var l, m := c.ledger, Run(v, c, groups).ledger;
      && v.app in m.balances
      && l.balances[v.app] + INITIAL_EXCHANGE_RATE * Outstanding(v, m) <= m.balances[v.app]
      && Sum(m.balances) == Sum(l.balances)
      && AssetsKept(l, m)
      && (forall id :: id in m.assets ==> Sum(m.assets[id].holdings) == m.assets[id].total)
      && (forall id :: id in m.assets && v.app in m.assets[id].holdings ==> m.assets[id].creator == v.app)
  {
    hide Run, Outstanding, Sum, GlobalsOk;
    RunKeeps(v, c, groups);
    var m := Run(v, c, groups).ledger;
    forall id | id in m.assets ensures Sum(m.assets[id].holdings) == m.assets[id].total {
      assert AssetOk(m, id);
    }
  }

  // ----- the vault's minimum balance -----

  ghost function CreatedIds(v: Vault, l: Ledger): set<nat> {
    set id | id in l.assets && l.assets[id].creator == v.app
  }

  ghost predicate MinimumGrows(v: Vault, l: Ledger, m: Ledger, made: nat) {
    && v.app in l.minBalances && v.app in m.minBalances
    && m.minBalances[v.app] == l.minBalances[v.app] + MIN_BALANCE * made
    && |CreatedIds(v, m)| == |CreatedIds(v, l)| + made
  }

  lemma PayMinimum(v: Vault, l: Ledger, from: Address, to: Address, amount: nat)
    requires v.app in l.minBalances
    requires Pay(l, from, to, amount).Done?
    ensures MinimumGrows(v, l, Pay(l, from, to, amount).value, 0)
  {
    hide Move;
  }

  /** A transfer raises a minimum balance only where it is an opt-in, and the vault's never is. */
  lemma TransferMinimum(v: Vault, l: Ledger, id: nat, from: Address, to: Address, amount: nat)
    requires v.app in l.minBalances
    requires Transfer(l, id, from, to, amount).Done?
    requires from == v.app ==> from != to
    ensures MinimumGrows(v, l, Transfer(l, id, from, to, amount).value, 0)
  {
    hide Move;
    var m := Transfer(l, id, from, to, amount).value;
    assert CreatedIds(v, m) == CreatedIds(v, l);
  }

  lemma CreateMinimum(v: Vault, l: Ledger, creator: Address, total: nat)
    requires WellFormed(l) && v.app in l.minBalances
    requires CreateAsset(l, creator, total).Done?
    ensures MinimumGrows(v, l, CreateAsset(l, creator, total).value, if creator == v.app then 1 else 0)
  {
    hide Sum, WellFormed, AssetsKept, SameAccount, CreatedIds;
    CreateAssetKeeps(l, creator, total);
    CreatedIdsAdded(v, l, CreateAsset(l, creator, total).value, l.nextAssetId);
  }

  lemma CreatedIdsAdded(v: Vault, l: Ledger, m: Ledger, id: nat)
    requires id !in l.assets && id in m.assets && m.assets == l.assets[id := m.assets[id]]
    ensures |CreatedIds(v, m)| == |CreatedIds(v, l)| + (if m.assets[id].creator == v.app then 1 else 0)
  {
    assert CreatedIds(v, m) == CreatedIds(v, l) + (if m.assets[id].creator == v.app then {id} else {});
  }

  /** Only `init_asset` raises the vault's minimum balance, by one unit for the one asset it creates. */
  lemma ExecMinimum(v: Vault, funding: nat, c: Chain, prev: Option<Txn>, t: Txn)
    requires Inv(v, funding, c, prev)
    requires t.sender != v.app
    requires Exec(v, c, prev, t).Done?
    ensures MinimumGrows(v, c.ledger, Exec(v, c, prev, t).value.chain.ledger, if t.InitAsset? then 1 else 0)
  {
    InvVault(v, funding, c, prev);
    hide Inv, WellFormed, MinimumGrows, Pay, Transfer, CreateAsset;
    var l := c.ledger;
    match t {
      case Payment(sender, receiver, amount) => PayMinimum(v, l, sender, receiver, amount);
      case AssetTransfer(sender, id, receiver, amount) => TransferMinimum(v, l, id, sender, receiver, amount);
      case AssetCreate(sender, total) => CreateMinimum(v, l, sender, total);
      case InitAsset(sender) => CreateMinimum(v, l, v.app, ASSET_TOTAL);
      case Mint(sender) =>
        var coins := AlgosToKCoin(prev.value.amount, c.globals).value;
        TransferMinimum(v, l, GlobalGet(c.globals, "asset_id"), v.app, sender, coins);
      case Burn(sender) => PayMinimum(v, l, v.app, sender, KCoinToAlgos(prev.value.amount, c.globals).value);
    }
  }

  /** How many assets a group creates for the vault. */
  ghost function Inits(group: seq<Txn>): nat {
    if group == [] then 0 else
      Inits(group[..|group| - 1]) + (if group[|group| - 1].InitAsset? then 1 else 0)
  }

  lemma {:induction false} ExecAllMinimum(v: Vault, funding: nat, c: Chain, group: seq<Txn>)
    requires Inv(v, funding, c, None)
    requires Signed(v, group)
    requires ExecAll(v, c, group).Done?
    ensures MinimumGrows(v, c.ledger, ExecAll(v, c, group).value.chain.ledger, Inits(group))
  {
    hide Inv, Exec, CreatedIds;
    if group == [] {
      InvVault(v, funding, c, None);
    } else {
      var front, t := group[..|group| - 1], group[|group| - 1];
      assert front == group[..|front|];
      ExecAllMinimum(v, funding, c, front);
      ExecAllKeeps(v, funding, c, front);
      ExecMinimum(v, funding, ExecAll(v, c, front).value.chain, Last(front), t);
    }
  }

  lemma InvVault(v: Vault, funding: nat, c: Chain, prev: Option<Txn>)
    requires Inv(v, funding, c, prev)
    ensures WellFormed(c.ledger) && v.app in c.ledger.minBalances
  {
  }

  /** How many calls of `init_asset` a run has carried out: those in groups that go through. */
  ghost function InitsDone(v: Vault, c: Chain, groups: seq<seq<Txn>>): nat {
    if groups == [] then 0 else
      var front, last := groups[..|groups| - 1], groups[|groups| - 1];
      InitsDone(v, c, front) + (if EvalGroup(v, Run(v, c, front), last).Done? then Inits(last) else 0)
  }

  /** After every run the vault has created one asset for each `init_asset` carried out, and each has
      raised its minimum balance by the same amount; nothing else has. */
  lemma {:induction false} VaultMinimum(v: Vault, c: Chain, groups: seq<seq<Txn>>)
    requires Start(v, c)
    requires AllSigned(v, groups)
    ensures var m := Run(v, c, groups).ledger;
      && v.app in c.ledger.minBalances && v.app in m.minBalances
      && m.minBalances[v.app] == c.ledger.minBalances[v.app] + MIN_BALANCE * InitsDone(v, c, groups)
      && |CreatedIds(v, m)| == InitsDone(v, c, groups)
  {
    hide Inv, ExecAll, Start, CreatedIds;
    NothingCreated(v, c);
    if groups != [] {
      var front, last := groups[..|groups| - 1], groups[|groups| - 1];
      assert AllSigned(v, front) && Signed(v, last);
      VaultMinimum(v, c, front);
      RunKeeps(v, c, front);
      var now := Run(v, c, front);
      if EvalGroup(v, now, last).Done? {
        ExecAllMinimum(v, c.ledger.balances[v.app], now, last);
      }
    }
  }

  lemma NothingCreated(v: Vault, c: Chain)
    requires Start(v, c)
    ensures v.app in c.ledger.balances && v.app in c.ledger.minBalances && CreatedIds(v, c.ledger) == {}
  {
    forall id | id in c.ledger.assets ensures c.ledger.assets[id].creator != v.app {
      assert AssetOk(c.ledger, id);
    }
  }

  // ----- every coin can be burned -----

  lemma OutsideCovers(v: Vault, l: Ledger, id: nat, holder: Address)
    requires WellFormed(l) && HoldsOwn(v, l) && Created(v, l, id)
    requires holder != v.app && holder in l.assets[id].holdings
    ensures l.assets[id].holdings[holder] <= Outside(v, l.assets[id]) <= ASSET_TOTAL
    ensures Outside(v, l.assets[id]) <= Outstanding(v, l)
  {
    hide Sum;
    assert AssetOk(l, id);
    SumAtLeast(l.assets[id].holdings, holder, v.app);
    SumWithout(OutsideByAsset(v, l), id);
  }

  /** A group that sends coins back and burns them. */
  function BurnGroup(v: Vault, holder: Address, id: nat, coins: nat): seq<Txn> {
    [AssetTransfer(holder, id, v.app, coins), Burn(holder)]
  }

  lemma TwoTransactions(v: Vault, c: Chain, s: Txn, t: Txn)
    ensures Touched(v, [s, t]) == TouchedBy(v, s) + TouchedBy(v, t)
    ensures ExecAll(v, c, [s, t]) ==
      match Exec(v, c, None, s)
      case Panic => Panic
      case Done(e) =>
        match Exec(v, e.chain, Some(s), t)
        case Panic => Panic
        case Done(f) => Done(Progress(f.chain, [e.output, f.output]))
  {
    hide Exec, TouchedBy;
    assert [s, t][..1] == [s];
    assert [s][..0] == [];
    assert Last([s]) == Some(s) && Last([]) == None;
    assert Touched(v, [s]) == TouchedBy(v, s);
    assert ExecAll(v, c, []) == Done(Progress(c, []));
    if Exec(v, c, None, s).Done? {
      var e := Exec(v, c, None, s).value;
      assert [] + [e.output] == [e.output];
      assert ExecAll(v, c, [s]) == Done(Progress(e.chain, [e.output]));
      if Exec(v, e.chain, Some(s), t).Done? {
        var f := Exec(v, e.chain, Some(s), t).value;
        assert [e.output] + [f.output] == [e.output, f.output];
      }
    }
  }

  /** In every state that a run can reach, whoever holds coins of any asset of the vault can burn any
      part of them and is paid the exchange rate for each, as long as the vault's first funding covers
      the minimum balance it started with and one more unit of it for every `init_asset` carried out;
      and the vault stays at or above its minimum. */
  lemma EveryCoinBurns(v: Vault, c: Chain, groups: seq<seq<Txn>>, holder: Address, id: nat, coins: nat)
    requires Start(v, c) && AllSigned(v, groups)
    requires var l := Run(v, c, groups).ledger;
      && v.app in c.ledger.minBalances
      && c.ledger.minBalances[v.app] + MIN_BALANCE * InitsDone(v, c, groups) <= c.ledger.balances[v.app]
      && id in l.assets && l.assets[id].creator == v.app
      && holder != v.app && holder in l.assets[id].holdings && coins <= l.assets[id].holdings[holder]
    ensures var now := Run(v, c, groups);
      var r := EvalGroup(v, now, BurnGroup(v, holder, id, coins));
      && r.Done? && r.value.outputs == [0, INITIAL_EXCHANGE_RATE * coins]
      && holder in now.ledger.balances && v.app in now.ledger.balances
      && 2 * coins <= now.ledger.balances[v.app]
      && v.app in r.value.chain.ledger.minBalances && v.app in r.value.chain.ledger.balances
      && r.value.chain.ledger.balances == now.ledger.balances[holder := now.ledger.balances[holder] + 2 * coins]
                                                     [v.app := now.ledger.balances[v.app] - 2 * coins]
      && r.value.chain.ledger.minBalances[v.app] <= r.value.chain.ledger.balances[v.app]
  {
    hide Run, Sum, InitsDone;
    RunKeeps(v, c, groups);
    VaultMinimum(v, c, groups);
    BurnPayable(v, c.ledger.balances[v.app], Run(v, c, groups), holder, id, coins);
  }

  /** What a burn does in any state: it goes through exactly when the payout leaves the vault at or
      above its minimum balance, and it cannot overflow. */
  lemma BurnPayable(v: Vault, funding: nat, c: Chain, holder: Address, id: nat, coins: nat)
    requires Inv(v, funding, c, None) && HoldersFunded(c.ledger)
    requires Created(v, c.ledger, id) && holder != v.app
    requires holder in c.ledger.assets[id].holdings && coins <= c.ledger.assets[id].holdings[holder]
    ensures var r := EvalGroup(v, c, BurnGroup(v, holder, id, coins));
      var balances, minBalances := c.ledger.balances, c.ledger.minBalances;
      && holder in balances && v.app in balances && v.app in minBalances
      && funding + 2 * coins <= balances[v.app]
      && (r.Done? <==> minBalances[v.app] + 2 * coins <= balances[v.app])
      && (r.Done? ==>
          && r.value.outputs == [0, 2 * coins]
          && r.value.chain.globals == c.globals
          && r.value.chain.ledger.balances == balances[holder := balances[holder] + 2 * coins]
                                                      [v.app := balances[v.app] - 2 * coins]
          && r.value.chain.ledger.minBalances == minBalances
          && Transfer(c.ledger, id, holder, v.app, coins).Done?
          && r.value.chain.ledger.assets == Transfer(c.ledger, id, holder, v.app, coins).value.assets)
  {
    hide Sum, Outstanding;
    var l := c.ledger;
    OutsideCovers(v, l, id, holder);
    assert AssetOk(l, id);
    assert OptedIn(l, holder);
    var s, t := AssetTransfer(holder, id, v.app, coins), Burn(holder);
    TwoTransactions(v, c, s, t);
    assert v.app in TouchedBy(v, t);
  }

  // ----- minting and rounding -----

  function MintGroup(v: Vault, buyer: Address, amount: nat): seq<Txn> {
    [Payment(buyer, v.app, amount), Mint(buyer)]
  }

  /** What a mint does: the amount returned is the amount moved, rounded down. */
  lemma MintMoves(v: Vault, funding: nat, c: Chain, buyer: Address, amount: nat)
    requires Inv(v, funding, c, None) && buyer != v.app
    requires EvalGroup(v, c, MintGroup(v, buyer, amount)).Done?
    ensures var id := GlobalGet(c.globals, "asset_id");
      var r := EvalGroup(v, c, MintGroup(v, buyer, amount)).value;
      var l, m := c.ledger, r.chain.ledger;
      var coins := amount / INITIAL_EXCHANGE_RATE;
      && Created(v, l, id) && r.outputs == [0, coins] && r.chain.globals == c.globals
      && buyer in l.balances && v.app in l.balances && amount <= l.balances[buyer]
      && m.balances == l.balances[buyer := l.balances[buyer] - amount][v.app := l.balances[v.app] + amount]
      && m.minBalances == l.minBalances
      && l.minBalances.Keys == l.balances.Keys
      && l.minBalances[v.app] <= l.balances[v.app] + amount
      && l.minBalances[buyer] <= l.balances[buyer] - amount
      && Transfer(l, id, v.app, buyer, coins).Done?
      && m.assets == Transfer(l, id, v.app, buyer, coins).value.assets
      && id in m.assets && v.app in l.assets[id].holdings && buyer in l.assets[id].holdings
      && coins <= l.assets[id].holdings[v.app]
      && m.assets[id].holdings == l.assets[id].holdings[v.app := l.assets[id].holdings[v.app] - coins]
                                                      [buyer := l.assets[id].holdings[buyer] + coins]
  {
    hide Sum, Outstanding;
    var s, t := Payment(buyer, v.app, amount), Mint(buyer);
    TwoTransactions(v, c, s, t);
    assert v.app in TouchedBy(v, t) && buyer in TouchedBy(v, t);
  }

  /** Minting and burning what was minted puts every account back, except that the vault keeps what
      the rounding lost: less than one exchange rate. */
  lemma MintThenBurn(v: Vault, funding: nat, c: Chain, buyer: Address, amount: nat)
    requires Inv(v, funding, c, None) && HoldersFunded(c.ledger) && buyer != v.app
    requires EvalGroup(v, c, MintGroup(v, buyer, amount)).Done?
    ensures var id := GlobalGet(c.globals, "asset_id");
      var minted := EvalGroup(v, c, MintGroup(v, buyer, amount)).value;
      var l, loss := c.ledger, amount % INITIAL_EXCHANGE_RATE;
      var burned := EvalGroup(v, minted.chain, BurnGroup(v, buyer, id, amount / INITIAL_EXCHANGE_RATE));
      && burned.Done? && burned.value.outputs == [0, amount - loss]
      && buyer in l.balances && loss <= l.balances[buyer]
      && burned.value.chain.globals == c.globals
      && burned.value.chain.ledger.assets == l.assets
      && burned.value.chain.ledger.minBalances == l.minBalances
      && burned.value.chain.ledger.balances
           == l.balances[buyer := l.balances[buyer] - loss][v.app := l.balances[v.app] + loss]
  {
    hide EvalGroup, Inv, HoldersFunded, Sum;
    MintMoves(v, funding, c, buyer, amount);
    var id, coins := GlobalGet(c.globals, "asset_id"), amount / INITIAL_EXCHANGE_RATE;
    var group := MintGroup(v, buyer, amount);
    var m := EvalGroup(v, c, group).value.chain;
    assert Signed(v, group);
    VaultFunded(v, c.ledger, id);
    SubmitKeeps(v, funding, c, group);
    SubmitDone(v, c, group);
    BurnPayable(v, funding, m, buyer, id, coins);
    var n := EvalGroup(v, m, BurnGroup(v, buyer, id, coins)).value.chain;
    assert n.ledger.assets == c.ledger.assets by {
      ReturnTrip(c.ledger, m.ledger, id, v.app, buyer, coins);
    }
    assert 2 * coins == amount - amount % 2;
  }

  lemma VaultFunded(v: Vault, l: Ledger, id: nat)
    requires HoldersFunded(l)
    requires id in l.assets && v.app in l.assets[id].holdings
    ensures v.app in l.balances && v.app in l.minBalances && l.minBalances[v.app] <= l.balances[v.app]
  {
    assert OptedIn(l, v.app);
  }

  lemma SubmitDone(v: Vault, c: Chain, group: seq<Txn>)
    requires EvalGroup(v, c, group).Done?
    ensures Submit(v, c, group) == EvalGroup(v, c, group).value.chain
  {
  }

  lemma ReturnTrip(l: Ledger, m: Ledger, id: nat, from: Address, to: Address, amount: nat)
    requires from != to && id in l.assets
    requires from in l.assets[id].holdings && to in l.assets[id].holdings
    requires Transfer(l, id, from, to, amount).Done?
    requires m.assets == Transfer(l, id, from, to, amount).value.assets
    requires Transfer(m, id, to, from, amount).Done?
    ensures Transfer(m, id, to, from, amount).value.assets == l.assets
  {
    var h := l.assets[id].holdings;
    var back := Transfer(m, id, to, from, amount).value.assets;
    assert back[id].holdings == h;
  }

  function Total(payments: seq<nat>): nat {
    if payments == [] then 0 else Total(payments[..|payments| - 1]) + payments[|payments| - 1]
  }

  function Minted(payments: seq<nat>, rate: nat): nat
    requires 0 < rate
  {
    if payments == [] then 0
    else Minted(payments[..|payments| - 1], rate) + payments[|payments| - 1] / rate
  }

  /** Splitting a payment over `n` mints never gains a coin and loses at most `n - 1`. */
  lemma {:induction false} SplitPayments(payments: seq<nat>, rate: nat)
    requires 0 < rate && payments != []
    ensures Minted(payments, rate) <= Total(payments) / rate
    ensures Total(payments) / rate <= Minted(payments, rate) + |payments| - 1
  {
    var front, last := payments[..|payments| - 1], payments[|payments| - 1];
    if front == [] {
      assert Total(front) == 0 && Minted(front, rate) == 0;
    } else {
      SplitPayments(front, rate);
      FloorOfSum(Total(front), last, rate);
    }
  }

  lemma FloorOfSum(a: nat, b: nat, rate: nat)
    requires 0 < rate
    ensures a / rate + b / rate <= (a + b) / rate <= a / rate + b / rate + 1
  {
    var q, r := a / rate + b / rate, a % rate + b % rate;
    assert a + b == q * rate + r;
    if r < rate {
      DivModExact(q, rate, r);
    } else {
      assert a + b == (q + 1) * rate + (r - rate);
      DivModExact(q + 1, rate, r - rate);
    }
  }

  /** Several mints by one buyer, each in a group of its own. */
  function MintAll(v: Vault, c: Chain, buyer: Address, payments: seq<nat>): Result<Chain> {
    if payments == [] then Done(c) else
      match MintAll(v, c, buyer, payments[..|payments| - 1])
      case Panic => Panic
      case Done(m) =>
        match EvalGroup(v, m, MintGroup(v, buyer, payments[|payments| - 1]))
        case Panic => Panic
        case Done(p) => Done(p.chain)
  }

  function CoinsOf(c: Chain, holder: Address): int {
    var id := GlobalGet(c.globals, "asset_id");
    if id in c.ledger.assets && holder in c.ledger.assets[id].holdings
    then c.ledger.assets[id].holdings[holder] else -1
  }

  /** The buyer of several mints pays their sum and gets the coins of each payment rounded down. */
  lemma {:induction false} MintsAddUp(v: Vault, funding: nat, c: Chain, buyer: Address, payments: seq<nat>)
    requires Inv(v, funding, c, None) && HoldersFunded(c.ledger) && buyer != v.app
    requires MintAll(v, c, buyer, payments).Done?
    ensures var m := MintAll(v, c, buyer, payments).value;
      && Inv(v, funding, m, None) && HoldersFunded(m.ledger) && m.globals == c.globals
      && (payments != [] ==>
            && 0 <= CoinsOf(c, buyer)
            && CoinsOf(m, buyer) == CoinsOf(c, buyer) + Minted(payments, INITIAL_EXCHANGE_RATE)
            && buyer in c.ledger.balances && buyer in m.ledger.balances
            && m.ledger.balances[buyer] == c.ledger.balances[buyer] - Total(payments))
  {
    hide Inv, EvalGroup, HoldersFunded;
    if payments != [] {
      var front, last := payments[..|payments| - 1], payments[|payments| - 1];
      MintsAddUp(v, funding, c, buyer, front);
      var m := MintAll(v, c, buyer, front).value;
      var group := MintGroup(v, buyer, last);
      MintMoves(v, funding, m, buyer, last);
      assert Signed(v, group);
      SubmitKeeps(v, funding, m, group);
      SubmitDone(v, m, group);
    }
  }
}
