/** The state that `KAVMClient` (algod.py) tracks between submissions: accounts, which account
    created which application, committed transactions, and the directory of decompiled programs.

    The K evaluator is a parameter: it turns a scenario into a dump of the new state, or fails. */
module Client {
  import opened Common
  import opened Characters
  import opened PyBase64
  import opened Algorand
  import opened TxnByteFields
  import opened TxnJson
  import opened Scenario
  import opened Base

  const FAUCET_ALGO_SUPPLY := 18446744073709551615

  datatype Reply = Failed | Dump(accounts: seq<Account>, committed: seq<(string, string)>)

  type Evaluator = Scenario -> Reply

  /** What the client relies on: the two hashes and the evaluator. */
  datatype Env = Env(sha: Sha, hash: Hash, kavm: Evaluator)

  /** A transaction of the SDK: the programs it carries (`apap` and `apsu`) as raw bytes, and the
      other entries of its dictionary. */
  datatype Txn = Txn(sender: string, receiver: Option<string>, approval: seq<Byte>, clear: seq<Byte>,
                     fields: seq<Field>)

  /** `accounts` is the account dictionary in insertion order; the key is the address. */
  datatype State = State(accounts: seq<Account>, appCreators: map<int, string>,
                         committed: map<string, string>, dir: map<string, string>)

  datatype Answer = TxId(id: string) | ScenarioError | EvaluationError | NothingCommitted

  datatype Lookup = Found(app: App) | NotIndexed | CreatorMissing | NoAppList | NotCreated

  // ----- the account dictionary -----

  predicate Known(accounts: seq<Account>, address: string) {
    exists i :: 0 <= i < |accounts| && accounts[i].address == address
  }

  ghost predicate Distinct(accounts: seq<Account>) {
    forall i, j :: 0 <= i < j < |accounts| ==> accounts[i].address != accounts[j].address
  }

  /** `accounts[a.address] = a`: in place when the key is there, at the end when it is new. */
  function Put(accounts: seq<Account>, a: Account): seq<Account> {
    if accounts == [] then [a]
    else if accounts[0].address == a.address then [a] + accounts[1..]
    else [accounts[0]] + Put(accounts[1..], a)
  }

  function AddUnknown(accounts: seq<Account>, address: string): seq<Account> {
    if Known(accounts, address) then accounts else accounts + [Account(address, 0, None)]
  }

  function Discover(accounts: seq<Account>, txns: seq<Txn>): seq<Account> {
    if txns == [] then accounts else
      var t := txns[|txns| - 1];
      var before := AddUnknown(Discover(accounts, txns[..|txns| - 1]), t.sender);
      if t.receiver.Some? then AddUnknown(before, t.receiver.value) else before
  }

  // ----- the application index -----

  function IndexApps(creators: map<int, string>, address: string, apps: seq<App>): map<int, string> {
    if apps == [] then creators
    else IndexApps(creators, address, apps[..|apps| - 1])[apps[|apps| - 1].id := address]
  }

  /** One pass over all accounts. */
  function IndexAccounts(creators: map<int, string>, accounts: seq<Account>): map<int, string> {
    if accounts == [] then creators else
      var a := accounts[|accounts| - 1];
      IndexApps(IndexAccounts(creators, accounts[..|accounts| - 1]), a.address, AppsOf(a))
  }

  datatype Rebuilt = Rebuilt(accounts: seq<Account>, appCreators: map<int, string>)

  /** The dumped accounts are put into an empty dictionary one by one, and after each one all the
      accounts so far are indexed again. */
  function Rebuild(creators: map<int, string>, dump: seq<Account>): Rebuilt {
    if dump == [] then Rebuilt([], creators) else
      var before := Rebuild(creators, dump[..|dump| - 1]);
      var accounts := Put(before.accounts, dump[|dump| - 1]);
      Rebuilt(accounts, IndexAccounts(before.appCreators, accounts))
  }

  function Commit(committed: map<string, string>, txns: seq<(string, string)>): map<string, string> {
    if txns == [] then committed
    else Commit(committed, txns[..|txns| - 1])[txns[|txns| - 1].0 := txns[|txns| - 1].1]
  }

  // ----- a submission -----

  function ToJson(hash: Hash, t: Txn): JsonTxn
    requires JsonFields(hash, t.fields).Some?
  {
    JsonTxn(B64EncodePadded(t.approval), B64EncodePadded(t.clear), JsonFields(hash, t.fields).value)
  }

  predicate HasJson(hash: Hash, txns: seq<Txn>) {
    forall i :: 0 <= i < |txns| ==> JsonFields(hash, txns[i].fields).Some?
  }

  function AllToJson(hash: Hash, txns: seq<Txn>): seq<JsonTxn>
    requires HasJson(hash, txns)
  {
    seq(|txns|, i requires 0 <= i < |txns| => ToJson(hash, txns[i]))
  }

  /** The scenario of a group, or None when it has no JSON form or cannot be built. */
  ghost function Construct(env: Env, dir: map<string, string>, accounts: seq<Account>,
                           txns: seq<Txn>): Option<Scenario> {
    if HasJson(env.hash, txns) then
      FromStages(env.sha, dir, [SetupNetwork(accounts), SubmitTransactions(AllToJson(env.hash, txns))])
    else None
  }

  datatype Submission = Submission(state: State, answer: Answer)

  ghost function Submit(env: Env, s: State, txns: seq<Txn>): Submission {
    var known := Discover(s.accounts, txns);
    match Construct(env, s.dir, known, txns)
    case None => Submission(s.(accounts := known), ScenarioError)
    case Some(scenario) =>
      var written := s.dir + scenario.programs;
      match env.kavm(scenario)
      case Failed => Submission(s.(accounts := known, dir := written), EvaluationError)
      case Dump(accounts, committed) =>
        var rebuilt := Rebuild(s.appCreators, SanitizeAccounts(accounts));
        Submission(State(rebuilt.accounts, rebuilt.appCreators, Commit(s.committed, committed), written),
                   if committed == [] then NothingCommitted else TxId(committed[0].0))
  }

  ghost function Run(env: Env, s: State, submissions: seq<seq<Txn>>): State {
    if submissions == [] then s
    else Submit(env, Run(env, s, submissions[..|submissions| - 1]), submissions[|submissions| - 1]).state
  }

  // ----- the code -----

  class KAVMClient {
    var accounts: seq<Account>
    var appCreators: map<int, string>
    var committedTxns: map<string, string>
    var decompiledTealDir: map<string, string>

    constructor (faucetAddress: string, dir: map<string, string>)
      ensures Now() == State([Account(faucetAddress, FAUCET_ALGO_SUPPLY, None)], map[], map[], dir)
    {
      accounts := [Account(faucetAddress, FAUCET_ALGO_SUPPLY, None)];
      appCreators, committedTxns, decompiledTealDir := map[], map[], dir;
    }

    function Now(): State
      reads this
    {
      State(accounts, appCreators, committedTxns, decompiledTealDir)
    }

    /** `/teal/compile` does not compile: it returns the source as base64. */
    method CompileTeal(data: seq<Byte>) returns (result: string)
      ensures result == B64EncodePadded(data)
    {
      hide Encode;
      result := B64Encode(data, true);
    }

    method DiscoverAddresses(txns: seq<Txn>)
      modifies this`accounts
      ensures accounts == Discover(old(accounts), txns)
    {
      for i := 0 to |txns|
        invariant accounts == Discover(old(accounts), txns[..i])
      {
        if !Known(accounts, txns[i].sender) {
          accounts := accounts + [Account(txns[i].sender, 0, None)];
        }
        if txns[i].receiver.Some? {
          if !Known(accounts, txns[i].receiver.value) {
            accounts := accounts + [Account(txns[i].receiver.value, 0, None)];
          }
        }
        assert txns[..i + 1][..i] == txns[..i];
      }
      assert txns[..|txns|] == txns;
    }

    /** Indexes the applications of all tracked accounts. */
    method IndexTracked()
      modifies this`appCreators
      ensures appCreators == IndexAccounts(old(appCreators), accounts)
    {
      for j := 0 to |accounts|
        invariant appCreators == IndexAccounts(old(appCreators), accounts[..j])
      {
        var apps := AppsOf(accounts[j]);
        ghost var before := appCreators;
        for k := 0 to |apps|
          invariant appCreators == IndexApps(before, accounts[j].address, apps[..k])
        {
          appCreators := appCreators[apps[k].id := accounts[j].address];
          assert apps[..k + 1][..k] == apps[..k];
        }
        assert apps[..|apps|] == apps;
        assert accounts[..j + 1][..j] == accounts[..j];
      }
      assert accounts[..|accounts|] == accounts;
    }

    /** Replaces the tracked accounts by a dump, indexing again after every account. */
    method ReplaceAccounts(dump: seq<Account>)
      modifies this`accounts, this`appCreators
      ensures Rebuilt(accounts, appCreators) == Rebuild(old(appCreators), dump)
    {
      hide IndexAccounts, Put;
      accounts := [];
      for i := 0 to |dump|
        invariant Rebuilt(accounts, appCreators) == Rebuild(old(appCreators), dump[..i])
      {
        accounts := Put(accounts, dump[i]);
        IndexTracked();
        assert dump[..i + 1][..i] == dump[..i];
      }
      assert dump[..|dump|] == dump;
    }

    method ConstructScenario(env: Env, txns: seq<Txn>) returns (r: Option<Scenario>)
      ensures r == Construct(env, decompiledTealDir, accounts, txns)
    {
      hide FromStages, Sanitized, IsJson, B64EncodePadded;
      var json := [];
      for i := 0 to |txns|
        invariant |json| == i
        invariant forall j :: 0 <= j < i ==>
          JsonFields(env.hash, txns[j].fields).Some? && json[j] == ToJson(env.hash, txns[j])
      {
        var txnDict := new TxnDict(txns[i].fields);
        var ok := txnDict.SanitizeByteFields(env.hash);
        if !ok || !AllJson(txnDict.fields) { return None; }
        json := json + [JsonTxn(B64EncodePadded(txns[i].approval), B64EncodePadded(txns[i].clear), txnDict.fields)];
      }
      assert json == AllToJson(env.hash, txns);
      r := FromJson(env.sha, decompiledTealDir, [SetupNetwork(accounts), SubmitTransactions(json)]);
    }

    /** Submits a group. The programs of its scenario are written before it is evaluated. */
    method EvalTransactions(env: Env, txns: seq<Txn>) returns (answer: Answer)
      modifies this
      ensures Submission(Now(), answer) == Submit(env, old(Now()), txns)
    {
      hide Construct, Discover, Rebuild, SanitizeAccounts;
      DiscoverAddresses(txns);
      var scenario := ConstructScenario(env, txns);
      if scenario.None? { return ScenarioError; }
      decompiledTealDir := decompiledTealDir + scenario.value.programs;
      var reply := env.kavm(scenario.value);
      if reply.Failed? { return EvaluationError; }
      var dump := SanitizeAccounts(reply.accounts);
      ReplaceAccounts(dump);
      ghost var before := committedTxns;
      for i := 0 to |reply.committed|
        invariant accounts == Rebuild(old(appCreators), dump).accounts
        invariant appCreators == Rebuild(old(appCreators), dump).appCreators
        invariant decompiledTealDir == old(decompiledTealDir) + scenario.value.programs
        invariant committedTxns == Commit(before, reply.committed[..i])
      {
        var txn := reply.committed[i];
        committedTxns := committedTxns[txn.0 := txn.1];
        assert reply.committed[..i + 1][..i] == reply.committed[..i];
      }
      assert reply.committed[..|reply.committed|] == reply.committed;
      answer := if reply.committed == [] then NothingCommitted else TxId(reply.committed[0].0);
    }

    /** `GET /v2/accounts/...`: an unknown account is reported with balance 0. */
    method AccountInfo(address: string) returns (a: Account)
      ensures a.address == address
      ensures if Known(accounts, address) then a in accounts else a == Account(address, 0, None)
    {
      for i := 0 to |accounts|
        invariant !Known(accounts[..i], address)
      {
        if accounts[i].address == address { return accounts[i]; }
      }
      assert accounts[..|accounts|] == accounts;
      a := Account(address, 0, None);
    }

    /** `GET /v2/applications/...`: through the index to the creator, and then to the application. */
    method ApplicationInfo(appId: int) returns (r: Lookup)
      ensures r == ApplicationOf(Now(), appId)
    {
      if appId !in appCreators { return NotIndexed; }
      var creator := appCreators[appId];
      for i := 0 to |accounts|
        invariant !Known(accounts[..i], creator)
      {
        if accounts[i].address == creator {
          AccountAt(accounts, i);
          if accounts[i].apps.None? { return NoAppList; }
          var apps := accounts[i].apps.value;
          for j := 0 to |apps|
            invariant FirstWithId(apps, appId) == FirstWithId(apps[j..], appId)
          {
            if apps[j].id == appId { return Found(apps[j]); }
          }
          return NotCreated;
        }
      }
      assert accounts[..|accounts|] == accounts;
      r := CreatorMissing;
    }
  }

  function FirstWithId(apps: seq<App>, id: int): Lookup {
    if apps == [] then NotCreated
    else if apps[0].id == id then Found(apps[0])
    else FirstWithId(apps[1..], id)
  }

  function AccountOf(accounts: seq<Account>, address: string): (r: Option<Account>)
    ensures r.None? <==> !Known(accounts, address)
    ensures r.Some? ==> r.value in accounts && r.value.address == address
  {
    if accounts == [] then None
    else if accounts[0].address == address then Some(accounts[0])
    else
      var r := AccountOf(accounts[1..], address);
      assert Known(accounts, address) ==> Known(accounts[1..], address) by {
        if Known(accounts, address) {
          var i :| 0 <= i < |accounts| && accounts[i].address == address;
          assert accounts[1..][i - 1] == accounts[i];
        }
      }
      assert Known(accounts[1..], address) ==> Known(accounts, address) by {
        if Known(accounts[1..], address) {
          var i :| 0 <= i < |accounts[1..]| && accounts[1..][i].address == address;
          assert accounts[i + 1].address == address;
        }
      }
      r
  }

  lemma {:induction false} AccountAt(accounts: seq<Account>, i: nat)
    requires i < |accounts| && !Known(accounts[..i], accounts[i].address)
    ensures AccountOf(accounts, accounts[i].address) == Some(accounts[i])
  {
    if i != 0 {
      assert accounts[..i][0] == accounts[0];
      var rest := accounts[1..][..i - 1];
      forall j | 0 <= j < |rest| ensures rest[j].address != accounts[i].address {
        assert accounts[..i][j + 1] == rest[j];
      }
      AccountAt(accounts[1..], i - 1);
    }
  }

  function ApplicationOf(s: State, id: int): Lookup {
    if id !in s.appCreators then NotIndexed else
      match AccountOf(s.accounts, s.appCreators[id])
      case None => CreatorMissing
      case Some(a) => if a.apps.None? then NoAppList else FirstWithId(a.apps.value, id)
  }
}
