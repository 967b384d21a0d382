/** The K-Coin vault (kcoin_vault_pyteal.py): a contract that sells its own asset for Algos and buys
    it back. The methods of class `Network` run the code; the functions say what they must do. */
module KCoinVault {
  import opened Common
  import opened Ledger

  const ASSET_TOTAL := 1_000_000
  const INITIAL_EXCHANGE_RATE := 2

  /** The application: its escrow account and the account that created it. */
  datatype Vault = Vault(app: Address, creator: Address)

  /** A transaction. The transaction argument of a `mint` or `burn` call is the one before it in the
      group. */
  datatype Txn =
    | Payment(sender: Address, receiver: Address, amount: nat)
    | AssetTransfer(sender: Address, asset: nat, receiver: Address, amount: nat)
    | AssetCreate(sender: Address, total: nat)
    | InitAsset(sender: Address)
    | Mint(sender: Address)
    | Burn(sender: Address)

  type Globals = map<string, nat>

  datatype Chain = Chain(ledger: Ledger, globals: Globals)

  /** The chain after a call, and what the call returns (0 for a plain transaction). */
  datatype Effect = Effect(chain: Chain, output: nat)

  // ----- TEAL -----

  function GlobalGet(globals: Globals, key: string): nat {
    if key in globals then globals[key] else 0
  }

  function Div(x: nat, y: nat): Result<nat> {
    if y == 0 then Panic else Done(x / y)
  }

  function Mul(x: nat, y: nat): Result<nat> {
    if MAX_UINT64 < x * y then Panic else Done(x * y)
  }

  function AlgosToKCoin(amount: nat, globals: Globals): Result<nat> {
    Div(amount, GlobalGet(globals, "exchange_rate"))
  }

  function KCoinToAlgos(amount: nat, globals: Globals): Result<nat> {
    Mul(amount, GlobalGet(globals, "exchange_rate"))
  }

  // ----- what the three methods must do -----

  function InitAssetSpec(v: Vault, c: Chain, sender: Address): Result<Effect> {
    if sender != v.creator then Panic else
      match CreateAsset(c.ledger, v.app, ASSET_TOTAL)
      case Panic => Panic
      case Done(ledger) =>
        var id := c.ledger.nextAssetId;
        var globals := c.globals["asset_id" := id]["exchange_rate" := INITIAL_EXCHANGE_RATE];
        Done(Effect(Chain(ledger, globals), id))
  }

  function MintSpec(v: Vault, c: Chain, payment: Txn, sender: Address): Result<Effect>
    requires payment.Payment?
  {
    var id := GlobalGet(c.globals, "asset_id");
    if id == 0 || payment.receiver != v.app then Panic else
      match AlgosToKCoin(payment.amount, c.globals)
      case Panic => Panic
      case Done(coins) =>
        match Transfer(c.ledger, id, v.app, sender, coins)
        case Panic => Panic
        case Done(ledger) => Done(Effect(Chain(ledger, c.globals), coins))
  }

  function BurnSpec(v: Vault, c: Chain, transfer: Txn, sender: Address): Result<Effect>
    requires transfer.AssetTransfer?
  {
    if transfer.receiver != v.app then Panic else
      match KCoinToAlgos(transfer.amount, c.globals)
      case Panic => Panic
      case Done(algos) =>
        match Pay(c.ledger, v.app, sender, algos)
        case Panic => Panic
        case Done(ledger) => Done(Effect(Chain(ledger, c.globals), algos))
  }

  // ----- transactions and atomic groups -----

  function Plain(c: Chain, r: Result<Ledger>): Result<Effect> {
    match r
    case Panic => Panic
    case Done(ledger) => Done(Effect(Chain(ledger, c.globals), 0))
  }

  function Exec(v: Vault, c: Chain, prev: Option<Txn>, t: Txn): Result<Effect> {
    match t
    case Payment(sender, receiver, amount) => Plain(c, Pay(c.ledger, sender, receiver, amount))
    case AssetTransfer(sender, id, receiver, amount) =>
      Plain(c, Transfer(c.ledger, id, sender, receiver, amount))
    case AssetCreate(sender, total) => Plain(c, CreateAsset(c.ledger, sender, total))
    case InitAsset(sender) => InitAssetSpec(v, c, sender)
    case Mint(sender) =>
      if prev.Some? && prev.value.Payment? then MintSpec(v, c, prev.value, sender) else Panic
    case Burn(sender) =>
      if prev.Some? && prev.value.AssetTransfer? then BurnSpec(v, c, prev.value, sender) else Panic
  }

  function Last(group: seq<Txn>): Option<Txn> {
    if group == [] then None else Some(group[|group| - 1])
  }

  /** The chain and the outputs after all transactions of a group. */
  datatype Progress = Progress(chain: Chain, outputs: seq<nat>)

  function ExecAll(v: Vault, c: Chain, group: seq<Txn>): Result<Progress> {
    if group == [] then Done(Progress(c, [])) else
      var front := group[..|group| - 1];
      match ExecAll(v, c, front)
      case Panic => Panic
      case Done(p) =>
        match Exec(v, p.chain, Last(front), group[|group| - 1])
        case Panic => Panic
        case Done(e) => Done(Progress(e.chain, p.outputs + [e.output]))
  }

  /** avm-execution.md:129, 152, 172, 470: senders and receivers of payments, inner ones included. */
  function TouchedBy(v: Vault, t: Txn): set<Address> {
    match t
    case Payment(sender, receiver, _) => {sender, receiver}
    case AssetTransfer(sender, _, _, _) => {sender}
    case AssetCreate(sender, _) => {sender}
    case InitAsset(sender) => {sender, v.app}
    case Mint(sender) => {sender, v.app}
    case Burn(sender) => {sender, v.app}
  }

  function Touched(v: Vault, group: seq<Txn>): set<Address> {
    if group == [] then {} else Touched(v, group[..|group| - 1]) + TouchedBy(v, group[|group| - 1])
  }

  predicate Sufficient(l: Ledger, a: Address) {
    a in l.balances && a in l.minBalances && l.minBalances[a] <= l.balances[a]
  }

  /** All or nothing; minimum balances are checked at the end of the group (avm-execution.md:78-81, 392-418). */
  function EvalGroup(v: Vault, c: Chain, group: seq<Txn>): Result<Progress> {
    match ExecAll(v, c, group)
    case Panic => Panic
    case Done(p) =>
      if forall a :: a in Touched(v, group) ==> Sufficient(p.chain.ledger, a) then Done(p) else Panic
  }

  function Submit(v: Vault, c: Chain, group: seq<Txn>): Chain {
    match EvalGroup(v, c, group)
    case Panic => c
    case Done(p) => p.chain
  }

  function Run(v: Vault, c: Chain, groups: seq<seq<Txn>>): Chain {
    if groups == [] then c
    else Submit(v, Run(v, c, groups[..|groups| - 1]), groups[|groups| - 1])
  }

  // ----- the code -----

  class Network {
    const vault: Vault
    var ledger: Ledger
    var globals: Globals

    constructor (vault: Vault, ledger: Ledger, globals: Globals)
      ensures this.vault == vault && Now() == Chain(ledger, globals)
    {
      this.vault, this.ledger, this.globals := vault, ledger, globals;
    }

    function Now(): Chain
      reads this
    {
      Chain(ledger, globals)
    }

    /** A failed inner transaction leaves the ledger alone and fails the call. */
    method Apply(r: Result<Ledger>) returns (ok: bool)
      modifies this`ledger
      ensures ok <==> r.Done?
      ensures ledger == if ok then r.value else old(ledger)
    {
      ok := r.Done?;
      if ok { ledger := r.value; }
    }

    method CallInitAsset(sender: Address) returns (ok: bool, output: nat)
      modifies this
      ensures var r := InitAssetSpec(vault, old(Now()), sender);
        && (ok <==> r.Done?)
        && (ok ==> Effect(Now(), output) == r.value)
    {
      ok, output := sender == vault.creator, 0;
      if !ok { return; }
      var created := ledger.nextAssetId;
      ok := Apply(CreateAsset(ledger, vault.app, ASSET_TOTAL));
      if !ok { return; }
      globals := globals["asset_id" := created];
      globals := globals["exchange_rate" := INITIAL_EXCHANGE_RATE];
      output := created;
    }

    method CallMint(payment: Txn, sender: Address) returns (ok: bool, output: nat)
      requires payment.Payment?
      modifies this
      ensures var r := MintSpec(vault, old(Now()), payment, sender);
        && (ok <==> r.Done?)
        && (ok ==> Effect(Now(), output) == r.value)
    {
      var assetId := GlobalGet(globals, "asset_id");
      ok, output := assetId != 0, 0;
      if !ok { return; }
      ok := payment.receiver == vault.app;
      if !ok { return; }
      var amountToMint := AlgosToKCoin(payment.amount, globals);
      ok := amountToMint.Done?;
      if !ok { return; }
      ok := Apply(Transfer(ledger, assetId, vault.app, sender, amountToMint.value));
      if !ok { return; }
      // the amount is computed again for the output
      var again := AlgosToKCoin(payment.amount, globals);
      output := again.value;
    }

    method CallBurn(transfer: Txn, sender: Address) returns (ok: bool, output: nat)
      requires transfer.AssetTransfer?
      modifies this
      ensures var r := BurnSpec(vault, old(Now()), transfer, sender);
        && (ok <==> r.Done?)
        && (ok ==> Effect(Now(), output) == r.value)
    {
      ok, output := transfer.receiver == vault.app, 0;
      if !ok { return; }
      var microalgos := KCoinToAlgos(transfer.amount, globals);
      ok := microalgos.Done?;
      if !ok { return; }
      ok := Apply(Pay(ledger, vault.app, sender, microalgos.value));
      if !ok { return; }
      var again := KCoinToAlgos(transfer.amount, globals);
      output := again.value;
    }

    method ExecOne(prev: Option<Txn>, t: Txn) returns (ok: bool, output: nat)
      modifies this
      ensures var r := Exec(vault, old(Now()), prev, t);
        && (ok <==> r.Done?)
        && (ok ==> Effect(Now(), output) == r.value)
    {
      output := 0;
      match t {
        case Payment(sender, receiver, amount) =>
          ok := Apply(Pay(ledger, sender, receiver, amount));
        case AssetTransfer(sender, id, receiver, amount) =>
          ok := Apply(Transfer(ledger, id, sender, receiver, amount));
        case AssetCreate(sender, total) =>
          ok := Apply(CreateAsset(ledger, sender, total));
        case InitAsset(sender) =>
          ok, output := CallInitAsset(sender);
        case Mint(sender) =>
          ok := prev.Some? && prev.value.Payment?;
          if ok { ok, output := CallMint(prev.value, sender); }
        case Burn(sender) =>
          ok := prev.Some? && prev.value.AssetTransfer?;
          if ok { ok, output := CallBurn(prev.value, sender); }
      }
    }

    /** A group is atomic: whatever fails, the chain is put back as it was. */
    method SubmitGroup(group: seq<Txn>) returns (ok: bool, outputs: seq<nat>)
      modifies this
      ensures var r := EvalGroup(vault, old(Now()), group);
        && (ok <==> r.Done?)
        && (ok ==> outputs == r.value.outputs)
        && Now() == Submit(vault, old(Now()), group)
        && Now() == if ok then r.value.chain else old(Now())
    {
      hide Exec;
      var ledgerBefore, globalsBefore := ledger, globals;
      var before := Chain(ledger, globals);
      var prev, touched := None, {};
      ok, outputs := true, [];
      var i := 0;
      while ok && i < |group|
        invariant 0 <= i <= |group| && |outputs| <= i
        invariant ok ==> prev == Last(group[..i]) && touched == Touched(vault, group[..i])
        invariant ok ==> ExecAll(vault, before, group[..i]) == Done(Progress(Now(), outputs))
        invariant !ok ==> ExecAll(vault, before, group[..i]) == Panic
        decreases |group| - i
      {
        var output;
        assert group[..i + 1][..i] == group[..i];
        ok, output := ExecOne(prev, group[i]);
        prev, touched, outputs := Some(group[i]), touched + TouchedBy(vault, group[i]), outputs + [output];
        i := i + 1;
      }
      if !ok {
        PanicStays(vault, before, group, i);
      } else {
        assert group[..i] == group;
        ok := forall a | a in touched :: Sufficient(ledger, a);
      }
      if !ok { ledger, globals := ledgerBefore, globalsBefore; }
    }
  }

  lemma {:induction false} PanicStays(v: Vault, c: Chain, group: seq<Txn>, i: nat)
    requires i <= |group|
    requires ExecAll(v, c, group[..i]).Panic?
    ensures ExecAll(v, c, group).Panic?
    decreases |group|
  {
    if i < |group| {
      var front := group[..|group| - 1];
      assert front[..i] == group[..i];
      PanicStays(v, c, front, i);
    } else {
      assert group[..i] == group;
    }
  }
}
