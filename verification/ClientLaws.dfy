/** What the tracked state of the client keeps over every run of submissions, failed ones included. */
module ClientLaws {
  import opened Common
  import opened Characters
  import opened PyBase64
  import opened Algorand
  import opened TxnByteFields
  import opened TxnJson
  import opened Scenario
  import opened Base
  import opened Client

  // ----- the account dictionary -----

  lemma {:induction false} PutUnknown(accounts: seq<Account>, a: Account)
    requires !Known(accounts, a.address)
    ensures Put(accounts, a) == accounts + [a]
  {
    if accounts != [] {
      forall i | 0 <= i < |accounts[1..]| ensures accounts[1..][i].address != a.address {
        assert accounts[1..][i] == accounts[i + 1];
      }
      PutUnknown(accounts[1..], a);
    }
  }

  ghost function Total(accounts: seq<Account>): nat {
    if accounts == [] then 0 else Total(accounts[..|accounts| - 1]) + accounts[|accounts| - 1].amount
  }

  ghost predicate Mentioned(txns: seq<Txn>, address: string) {
    exists i :: 0 <= i < |txns| && (txns[i].sender == address || txns[i].receiver == Some(address))
  }

  /** `after` is `before` followed by accounts that hold nothing and that `txns` mention. */
  ghost predicate OnlyEmptyAdded(before: seq<Account>, after: seq<Account>, txns: seq<Txn>) {
    && before <= after
    && (forall i :: |before| <= i < |after| ==>
          && after[i] == Account(after[i].address, 0, None)
          && !Known(before, after[i].address)
          && Mentioned(txns, after[i].address))
    && (Distinct(before) ==> Distinct(after))
    && Total(after) == Total(before)
  }

  lemma AddUnknownKeeps(before: seq<Account>, accounts: seq<Account>, txns: seq<Txn>, address: string)
    requires OnlyEmptyAdded(before, accounts, txns) && Mentioned(txns, address)
    ensures OnlyEmptyAdded(before, AddUnknown(accounts, address), txns)
    ensures Known(AddUnknown(accounts, address), address)
    ensures forall a :: Known(accounts, a) ==> Known(AddUnknown(accounts, address), a)
  {
  }

  lemma MentionedMore(txns: seq<Txn>, n: nat, address: string)
    requires n <= |txns| && Mentioned(txns[..n], address)
    ensures Mentioned(txns, address)
  {
  }

  /** Discovery adds empty accounts only, and afterwards every sender and receiver is known. */
  lemma {:induction false} DiscoverKeeps(accounts: seq<Account>, txns: seq<Txn>)
    ensures OnlyEmptyAdded(accounts, Discover(accounts, txns), txns)
    ensures forall a :: Mentioned(txns, a) ==> Known(Discover(accounts, txns), a)
  {
    hide Known, Total, AddUnknown;
    if txns != [] {
      var front, t := txns[..|txns| - 1], txns[|txns| - 1];
      DiscoverKeeps(accounts, front);
      var found := Discover(accounts, front);
      forall a | Mentioned(front, a) ensures Mentioned(txns, a) { MentionedMore(txns, |front|, a); }
      assert OnlyEmptyAdded(accounts, found, txns);
      assert Mentioned(txns, t.sender);
      AddUnknownKeeps(accounts, found, txns, t.sender);
      var more := AddUnknown(found, t.sender);
      if t.receiver.Some? {
        assert Mentioned(txns, t.receiver.value);
        AddUnknownKeeps(accounts, more, txns, t.receiver.value);
      }
      forall a | Mentioned(txns, a) ensures Known(Discover(accounts, txns), a) {
        var i :| 0 <= i < |txns| && (txns[i].sender == a || txns[i].receiver == Some(a));
        if i < |front| {
          assert front[i] == txns[i];
          assert Mentioned(front, a);
        }
      }
    }
  }

  /** Discovery goes through the group in order, and within a transaction from sender to receiver. */
  lemma {:induction false} DiscoverInOrder(accounts: seq<Account>, first: seq<Txn>, rest: seq<Txn>)
    ensures Discover(accounts, first + rest) == Discover(Discover(accounts, first), rest)
  {
    hide AddUnknown;
    if rest == [] {
      assert first + rest == first;
    } else {
      assert (first + rest)[..|first + rest| - 1] == first + rest[..|rest| - 1];
      DiscoverInOrder(accounts, first, rest[..|rest| - 1]);
    }
  }

  lemma DiscoverOne(accounts: seq<Account>, t: Txn)
    requires !Known(accounts, t.sender)
    ensures t.receiver.None? || t.receiver.value == t.sender || Known(accounts, t.receiver.value) ==>
      Discover(accounts, [t]) == accounts + [Account(t.sender, 0, None)]
    ensures t.receiver.Some? && t.receiver.value != t.sender && !Known(accounts, t.receiver.value) ==>
      Discover(accounts, [t]) == accounts + [Account(t.sender, 0, None), Account(t.receiver.value, 0, None)]
  {
    assert [t][..0] == [];
    var more := accounts + [Account(t.sender, 0, None)];
    assert Discover(accounts, []) == accounts;
    assert more[|accounts|].address == t.sender;
    if t.receiver.Some? && Known(accounts, t.receiver.value) {
      var i :| 0 <= i < |accounts| && accounts[i].address == t.receiver.value;
      assert more[i].address == t.receiver.value;
    }
  }

  // ----- failed submissions -----

  /** Index, committed transactions, every account and the total balance stay; only empty accounts
      are added. */
  ghost predicate Kept(s: State, t: State, txns: seq<Txn>) {
    t.appCreators == s.appCreators && t.committed == s.committed && OnlyEmptyAdded(s.accounts, t.accounts, txns)
  }

  /** A submission that fails before or in the evaluator keeps the state. */
  lemma FailureKeeps(env: Env, s: State, txns: seq<Txn>)
    ensures var r := Submit(env, s, txns);
      r.answer.ScenarioError? || r.answer.EvaluationError? ==> Kept(s, r.state, txns)
  {
    hide Discover, OnlyEmptyAdded, Construct;
    DiscoverKeeps(s.accounts, txns);
  }

  /** The third failure comes after the state was replaced: the evaluator's dump has no transaction to
      answer with. It happens exactly for such dumps, and the tracked accounts are then the dumped
      ones, none included. */
  lemma EmptyCommitReplaces(env: Env, s: State, txns: seq<Txn>)
    ensures var r := Submit(env, s, txns);
      var built := Construct(env, s.dir, Discover(s.accounts, txns), txns);
      && (r.answer.NothingCommitted? <==>
           built.Some? && env.kavm(built.value).Dump? && env.kavm(built.value).committed == [])
      && (r.answer.NothingCommitted? && Distinct(env.kavm(built.value).accounts) ==>
           && r.state.accounts == SanitizeAccounts(env.kavm(built.value).accounts)
           && r.state.committed == s.committed)
  {
    hide Construct, Discover, Rebuild;
    var built := Construct(env, s.dir, Discover(s.accounts, txns), txns);
    if built.Some? && env.kavm(built.value).Dump? {
      var accounts := env.kavm(built.value).accounts;
      if Distinct(accounts) {
        assert Distinct(SanitizeAccounts(accounts));
        RebuildIsOnePass(s.appCreators, SanitizeAccounts(accounts));
      }
    }
  }

  /** The evaluator reports some transaction for every group that is not empty. */
  ghost predicate Reports(kavm: Evaluator) {
    forall scenario :: kavm(scenario).Dump? && scenario.txns != [] ==> kavm(scenario).committed != []
  }

  /** Then no failed submission of such a group changes the state. */
  lemma GroupFailureKeeps(env: Env, s: State, txns: seq<Txn>)
    requires Reports(env.kavm) && txns != []
    ensures var r := Submit(env, s, txns);
      r.answer.TxId? || Kept(s, r.state, txns)
  {
    hide Discover, Construct, Kept;
    FailureKeeps(env, s, txns);
    EmptyCommitReplaces(env, s, txns);
    var built := Construct(env, s.dir, Discover(s.accounts, txns), txns);
    if built.Some? {
      var json := ConstructIs(env, s.dir, Discover(s.accounts, txns), txns);
    }
  }

  // ----- successful submissions -----

  /** A record of a dump keeps its address, amount and applications; a missing list becomes empty. */
  lemma SanitizedAccounts(accounts: seq<Account>, i: nat)
    requires i < |accounts|
    ensures var after := SanitizeAccounts(accounts);
      && |after| == |accounts|
      && after[i].address == accounts[i].address && after[i].amount == accounts[i].amount
      && after[i].apps == Some(if accounts[i].apps.Some? then accounts[i].apps.value else [])
  {
  }

  /** The transactions of a dump are merged: an id that is dumped has the parameters dumped last for it,
      every other id keeps its own. */
  lemma {:induction false} CommitAt(committed: map<string, string>, txns: seq<(string, string)>, id: string)
    ensures var m := Commit(committed, txns);
      && ((exists k :: 0 <= k < |txns| && txns[k].0 == id) ==> id in m)
      && (forall k :: 0 <= k < |txns| && txns[k].0 == id && (forall l :: k < l < |txns| ==> txns[l].0 != id) ==>
            id in m && m[id] == txns[k].1)
      && ((forall k :: 0 <= k < |txns| ==> txns[k].0 != id) ==>
            (id in m <==> id in committed) && (id in m ==> m[id] == committed[id]))
  {
    if txns != [] {
      var front, last := txns[..|txns| - 1], txns[|txns| - 1];
      CommitAt(committed, front, id);
      assert forall k :: 0 <= k < |front| ==> front[k] == txns[k];
    }
  }

  /** After the evaluator has answered with a dump, the tracked accounts are exactly the dumped ones, with
      their amounts and applications; the answer is the id of the first dumped transaction. */
  lemma DumpTracked(env: Env, s: State, txns: seq<Txn>)
    requires var built := Construct(env, s.dir, Discover(s.accounts, txns), txns);
      built.Some? && env.kavm(built.value).Dump? && Distinct(env.kavm(built.value).accounts)
    ensures var built := Construct(env, s.dir, Discover(s.accounts, txns), txns).value;
      var dump, r := env.kavm(built), Submit(env, s, txns);
      && |r.state.accounts| == |dump.accounts|
      && (forall i :: 0 <= i < |dump.accounts| ==>
            var a, b := dump.accounts[i], r.state.accounts[i];
            b.address == a.address && b.amount == a.amount && b.apps == Some(if a.apps.Some? then a.apps.value else []))
      && (dump.committed != [] ==> r.answer == TxId(dump.committed[0].0))
      && (dump.committed == [] ==> r.answer == NothingCommitted)
  {
    hide Construct, Discover, Rebuild, SanitizeAccounts;
    var accounts := env.kavm(Construct(env, s.dir, Discover(s.accounts, txns), txns).value).accounts;
    SanitizedLength(accounts);
    forall i | 0 <= i < |accounts|
      ensures var a, b := accounts[i], SanitizeAccounts(accounts)[i];
        b.address == a.address && b.amount == a.amount && b.apps == Some(if a.apps.Some? then a.apps.value else [])
    {
      SanitizedAccounts(accounts, i);
    }
    RebuildIsOnePass(s.appCreators, SanitizeAccounts(accounts));
  }

  lemma SanitizedLength(accounts: seq<Account>)
    ensures |SanitizeAccounts(accounts)| == |accounts|
  {
  }

  /** Then every dumped transaction is committed and every older one stays, and the directory has the
      scenario's programs and otherwise what it had. */
  lemma DumpCommitted(env: Env, s: State, txns: seq<Txn>, id: string, name: string)
    requires var built := Construct(env, s.dir, Discover(s.accounts, txns), txns);
      built.Some? && env.kavm(built.value).Dump?
    ensures var built := Construct(env, s.dir, Discover(s.accounts, txns), txns).value;
      var dumped, t := env.kavm(built).committed, Submit(env, s, txns).state;
      && (forall k :: 0 <= k < |dumped| && dumped[k].0 == id && (forall l :: k < l < |dumped| ==> dumped[l].0 != id) ==>
            id in t.committed && t.committed[id] == dumped[k].1)
      && ((forall k :: 0 <= k < |dumped| ==> dumped[k].0 != id) ==>
            (id in t.committed <==> id in s.committed)
            && (id in t.committed ==> t.committed[id] == s.committed[id]))
      && (name in t.dir <==> name in built.programs || name in s.dir)
      && (name in t.dir ==> t.dir[name] == if name in built.programs then built.programs[name] else s.dir[name])
  {
    hide Construct, Discover, Rebuild, Commit;
    CommitAt(s.committed, env.kavm(Construct(env, s.dir, Discover(s.accounts, txns), txns).value).committed, id);
  }

  ghost predicate Encodes(json: seq<JsonTxn>, txns: seq<Txn>) {
    && |json| == |txns|
    && forall i :: 0 <= i < |txns| ==>
      json[i].approval == B64EncodePadded(txns[i].approval) && json[i].clear == B64EncodePadded(txns[i].clear)
  }

  /** The other entries of each transaction, as text and with their default values. */
  ghost predicate Completed(hash: Hash, json: seq<JsonTxn>, txns: seq<Txn>) {
    && |json| == |txns|
    && forall i :: 0 <= i < |txns| ==>
      && Sanitized(hash, txns[i].fields).Some?
      && Defaults(Sanitized(hash, txns[i].fields).value) == Some(json[i].fields)
  }

  ghost predicate AllSendable(txns: seq<Txn>) {
    forall i :: 0 <= i < |txns| ==> Sendable(txns[i].fields)
  }

  /** A scenario has a transaction for every transaction of the group, and its programs are recorded
      from the accounts first and then from the transactions. */
  lemma ConstructIs(env: Env, dir: map<string, string>, accounts: seq<Account>, txns: seq<Txn>)
    returns (json: seq<JsonTxn>)
    ensures var r := Construct(env, dir, accounts, txns);
      && (r.Some? <==> AllSendable(txns) && AccountsOk(env.sha, dir, accounts) && TxnsOk(env.sha, dir, json))
      && (r.Some? ==>
           && |r.value.txns| == |txns|
           && r.value.accounts == RenameAccounts(env.sha, dir, accounts)
           && r.value.txns == RenameTxns(env.sha, dir, json)
           && r.value.programs == RecordTxns(env.sha, dir, RecordAccounts(env.sha, dir, accounts), json))
    ensures AllSendable(txns) ==> Encodes(json, txns) && Completed(env.hash, json, txns)
  {
    hide AccountsOk, FieldOk, RecordAccounts, RecordTxns, RenameAccounts, Rename, JsonFields, Defaults, Sendable;
    json := [];
    forall i | 0 <= i < |txns|
      ensures Sendable(txns[i].fields)
         <==> JsonFields(env.hash, txns[i].fields).Some? && Defaults(JsonFields(env.hash, txns[i].fields).value).Some?
    {
      SendableIff(env.hash, txns[i].fields);
    }
    if AllSendable(txns) {
      assert HasJson(env.hash, txns);
      assert DefaultsOk(AllToJson(env.hash, txns));
      json := DefaultTxns(AllToJson(env.hash, txns));
      forall i | 0 <= i < |txns|
        ensures Sanitized(env.hash, txns[i].fields).Some?
        ensures Defaults(Sanitized(env.hash, txns[i].fields).value) == Some(json[i].fields)
      {
        JsonIsSanitized(env.hash, txns[i].fields);
      }
    } else if HasJson(env.hash, txns) {
      var i :| 0 <= i < |txns| && !Sendable(txns[i].fields);
      assert Defaults(AllToJson(env.hash, txns)[i].fields).None?;
    }
  }

  lemma JsonIsSanitized(hash: Hash, d: seq<Field>)
    requires JsonFields(hash, d).Some?
    ensures Sanitized(hash, d) == JsonFields(hash, d)
  {
  }

  /** Every scenario handed to the evaluator lists all senders and receivers of the group. */
  lemma ScenarioListsGroup(env: Env, s: State, txns: seq<Txn>, a: string)
    requires Construct(env, s.dir, Discover(s.accounts, txns), txns).Some?
    requires Mentioned(txns, a)
    ensures Known(Construct(env, s.dir, Discover(s.accounts, txns), txns).value.accounts, a)
  {
    hide Construct, Discover, Mentioned, AppsOk, RenameApps, TxnsOk;
    DiscoverKeeps(s.accounts, txns);
    var known := Discover(s.accounts, txns);
    var json := ConstructIs(env, s.dir, known, txns);
    var i :| 0 <= i < |known| && known[i].address == a;
    assert RenameAccounts(env.sha, s.dir, known)[i].address == a;
  }

  // ----- the application index -----

  ghost predicate HasApp(a: Account, id: int) {
    exists k :: 0 <= k < |AppsOf(a)| && AppsOf(a)[k].id == id
  }

  lemma {:induction false} IndexAppsAt(creators: map<int, string>, address: string, apps: seq<App>, id: int)
    ensures var m := IndexApps(creators, address, apps);
      if exists k :: 0 <= k < |apps| && apps[k].id == id then id in m && m[id] == address
      else (id in m <==> id in creators) && (id in m ==> m[id] == creators[id])
  {
    if apps != [] {
      var front := apps[..|apps| - 1];
      IndexAppsAt(creators, address, front, id);
      if exists k :: 0 <= k < |apps| && apps[k].id == id {
        var k :| 0 <= k < |apps| && apps[k].id == id;
        if k < |front| {
          assert front[k].id == id;
        }
      }
    }
  }

  /** An id is indexed under the last account that lists it, and otherwise keeps its entry. */
  ghost function LastOwner(accounts: seq<Account>, id: int): Option<string> {
    if accounts == [] then None
    else if HasApp(accounts[|accounts| - 1], id) then Some(accounts[|accounts| - 1].address)
    else LastOwner(accounts[..|accounts| - 1], id)
  }

  lemma {:induction false} IndexAccountsAt(creators: map<int, string>, accounts: seq<Account>, id: int)
    ensures var m := IndexAccounts(creators, accounts);
      var owner := LastOwner(accounts, id);
      if owner.Some? then id in m && m[id] == owner.value
      else (id in m <==> id in creators) && (id in m ==> m[id] == creators[id])
  {
    if accounts != [] {
      var front, a := accounts[..|accounts| - 1], accounts[|accounts| - 1];
      IndexAccountsAt(creators, front, id);
      IndexAppsAt(IndexAccounts(creators, front), a.address, AppsOf(a), id);
    }
  }

  /** Indexing a prefix first changes nothing: the pass over all accounts writes those entries again. */
  lemma IndexPrefixFirst(creators: map<int, string>, front: seq<Account>, a: Account)
    ensures IndexAccounts(IndexAccounts(creators, front), front + [a]) == IndexAccounts(creators, front + [a])
  {
    hide IndexAccounts, HasApp;
    var once := IndexAccounts(creators, front + [a]);
    var twice := IndexAccounts(IndexAccounts(creators, front), front + [a]);
    assert (front + [a])[..|front|] == front;
    forall id ensures (id in once <==> id in twice) && (id in once ==> once[id] == twice[id]) {
      IndexAccountsAt(creators, front, id);
      IndexAccountsAt(creators, front + [a], id);
      IndexAccountsAt(IndexAccounts(creators, front), front + [a], id);
    }
  }

  /** When the dumped addresses are distinct, indexing again after every account gives the same index
      as one pass at the end, and the dump becomes the account dictionary as it is. */
  lemma {:induction false} RebuildIsOnePass(creators: map<int, string>, dump: seq<Account>)
    requires Distinct(dump)
    ensures Rebuild(creators, dump) == Rebuilt(dump, IndexAccounts(creators, dump))
  {
    hide IndexApps, HasApp;
    if dump != [] {
      var front, a := dump[..|dump| - 1], dump[|dump| - 1];
      assert Distinct(front);
      RebuildIsOnePass(creators, front);
      assert !Known(front, a.address);
      PutUnknown(front, a);
      assert front + [a] == dump;
      IndexPrefixFirst(creators, front, a);
    }
  }

  /** `a` is a record of the dump, and no later record of the same address replaces it. */
  ghost predicate Survives(dump: seq<Account>, a: Account) {
    exists j :: 0 <= j < |dump| && dump[j] == a && NotReplaced(dump, j)
  }

  ghost predicate NotReplaced(dump: seq<Account>, j: nat)
    requires j < |dump|
  {
    forall k :: j < k < |dump| ==> dump[k].address != dump[j].address
  }

  ghost predicate Listed(accounts: seq<Account>, id: int) {
    exists a :: a in accounts && HasApp(a, id)
  }

  /** Every application that is listed anywhere is also listed by a record that survives. */
  ghost predicate NoAppLost(dump: seq<Account>) {
    forall id :: Listed(dump, id) ==> Surviving(dump, id)
  }

  ghost predicate Surviving(dump: seq<Account>, id: int) {
    exists a :: Survives(dump, a) && HasApp(a, id)
  }

  lemma {:induction false} PutIs(accounts: seq<Account>, a: Account)
    requires Distinct(accounts)
    ensures Distinct(Put(accounts, a))
    ensures forall x :: x in Put(accounts, a) <==> x == a || (x in accounts && x.address != a.address)
  {
    if accounts != [] {
      var rest := accounts[1..];
      assert accounts == [accounts[0]] + rest;
      assert forall x :: x in rest ==> x.address != accounts[0].address;
      PutIs(rest, a);
    }
  }

  /** A replaced record keeps its place. */
  lemma {:induction false} PutInPlace(accounts: seq<Account>, a: Account, i: nat)
    requires Distinct(accounts) && i < |accounts| && accounts[i].address == a.address
    ensures Put(accounts, a) == accounts[i := a]
  {
    if i != 0 {
      PutInPlace(accounts[1..], a, i - 1);
    }
  }

  lemma SurvivesAppend(front: seq<Account>, last: Account, a: Account)
    ensures Survives(front + [last], a) <==> a == last || (Survives(front, a) && a.address != last.address)
  {
    var dump := front + [last];
    assert dump[|front|] == last && NotReplaced(dump, |front|);
    if Survives(front, a) && a.address != last.address {
      var j :| 0 <= j < |front| && front[j] == a && NotReplaced(front, j);
      assert dump[j] == a && NotReplaced(dump, j);
    }
    if Survives(dump, a) && a != last {
      var j :| 0 <= j < |dump| && dump[j] == a && NotReplaced(dump, j);
      assert dump[|front|].address != dump[j].address;
      forall k | j < k < |front| ensures front[k].address != front[j].address {
        assert dump[k] == front[k];
      }
      assert front[j] == a && NotReplaced(front, j);
    }
  }

  /** The rebuilt dictionary holds exactly the records that survive. */
  lemma {:induction false} RebuiltAre(creators: map<int, string>, dump: seq<Account>)
    ensures var accounts := Rebuild(creators, dump).accounts;
      Distinct(accounts) && forall a :: a in accounts <==> Survives(dump, a)
  {
    hide IndexAccounts, Put, Survives;
    if dump != [] {
      var front, last := dump[..|dump| - 1], dump[|dump| - 1];
      RebuiltAre(creators, front);
      PutIs(Rebuild(creators, front).accounts, last);
      assert front + [last] == dump;
      forall a ensures Survives(dump, a) <==> a == last || (Survives(front, a) && a.address != last.address) {
        SurvivesAppend(front, last, a);
      }
    } else {
      assert forall a :: !Survives([], a) by { NothingSurvives(); }
    }
  }

  lemma NothingSurvives()
    ensures forall a :: !Survives([], a)
  {
  }

  lemma {:induction false} LastOwnerListed(accounts: seq<Account>, id: int)
    ensures LastOwner(accounts, id).Some? <==> Listed(accounts, id)
  {
    hide HasApp;
    if accounts != [] {
      var front, last := accounts[..|accounts| - 1], accounts[|accounts| - 1];
      LastOwnerListed(front, id);
      assert front + [last] == accounts;
      assert forall a :: a in accounts <==> a in front || a == last;
    }
  }

  /** The owner under which the nested re-index leaves an id: its last owner the last time that any
      account in the dictionary listed it. */
  ghost function LeftOwner(dump: seq<Account>, id: int): Option<string> {
    if dump == [] then None else
      var now := LastOwner(Rebuild(map[], dump).accounts, id);
      if now.Some? then now else LeftOwner(dump[..|dump| - 1], id)
  }

  lemma {:induction false} SameAccounts(creators: map<int, string>, dump: seq<Account>)
    ensures Rebuild(creators, dump).accounts == Rebuild(map[], dump).accounts
  {
    if dump != [] {
      SameAccounts(creators, dump[..|dump| - 1]);
    }
  }

  lemma {:induction false} NestedAt(creators: map<int, string>, dump: seq<Account>, id: int)
    ensures var r, owner := Rebuild(creators, dump), LeftOwner(dump, id);
      && (id in r.appCreators <==> id in creators || owner.Some?)
      && (id in r.appCreators ==> r.appCreators[id] == if owner.Some? then owner.value else creators[id])
  {
    hide HasApp, IndexAccounts, LastOwner, Put;
    if dump != [] {
      var front := dump[..|dump| - 1];
      NestedAt(creators, front, id);
      SameAccounts(creators, dump);
      IndexAccountsAt(Rebuild(creators, front).appCreators, Rebuild(creators, dump).accounts, id);
    }
  }

  /** An id has such an owner exactly when some record lists it, and it is the last owner if the id is
      still listed. */
  lemma {:induction false} LeftOwnerIs(dump: seq<Account>, id: int)
    ensures LeftOwner(dump, id).Some? <==> Listed(dump, id)
    ensures var accounts := Rebuild(map[], dump).accounts;
      Listed(accounts, id) ==> LeftOwner(dump, id) == LastOwner(accounts, id)
  {
    hide HasApp, IndexAccounts, LastOwner, Put;
    if dump != [] {
      var front, last := dump[..|dump| - 1], dump[|dump| - 1];
      assert front + [last] == dump;
      assert forall a :: a in dump <==> a in front || a == last;
      LeftOwnerIs(front, id);
      RebuiltAre(map[], front);
      var before := Rebuild(map[], front).accounts;
      PutIs(before, last);
      var accounts := Rebuild(map[], dump).accounts;
      assert last in accounts;
      assert forall a :: a in before ==> a in front by { RebuiltFromDump(front); }
      LastOwnerListed(accounts, id);
    }
  }

  lemma RebuiltFromDump(dump: seq<Account>)
    ensures forall a :: a in Rebuild(map[], dump).accounts ==> a in dump
  {
    RebuiltAre(map[], dump);
  }

  /** Every application that is lost to a repeated address is already indexed, under the very owner
      that the nested re-index leaves it with. */
  ghost predicate LossesHidden(creators: map<int, string>, dump: seq<Account>) {
    forall id :: Listed(dump, id) && !Surviving(dump, id) ==>
      id in creators && LeftOwner(dump, id) == Some(creators[id])
  }

  /** For any dump and any index, indexing again after every account equals one final pass exactly when
      no listed application is lost to a repeated address, or the index has the losses already. */
  lemma NestedIsOnePass(creators: map<int, string>, dump: seq<Account>)
    ensures var r := Rebuild(creators, dump);
      && (r.appCreators == IndexAccounts(creators, r.accounts) <==> LossesHidden(creators, dump))
      && (NoAppLost(dump) ==> LossesHidden(creators, dump))
      && (creators == map[] ==> (LossesHidden(creators, dump) <==> NoAppLost(dump)))
  {
    hide Rebuild, IndexAccounts, HasApp, Survives, LastOwner, LeftOwner;
    var r := Rebuild(creators, dump);
    var once := IndexAccounts(creators, r.accounts);
    SameAccounts(creators, dump);
    RebuiltAre(creators, dump);
    forall id
      ensures Agree(once, r.appCreators, id)
         <==> (Listed(dump, id) && !Surviving(dump, id) ==>
                id in creators && LeftOwner(dump, id) == Some(creators[id]))
    {
      IndexAccountsAt(creators, r.accounts, id);
      LastOwnerListed(r.accounts, id);
      NestedAt(creators, dump, id);
      LeftOwnerIs(dump, id);
      assert Listed(r.accounts, id) <==> Surviving(dump, id);
    }
    if forall id :: Agree(once, r.appCreators, id) { SameMap(once, r.appCreators); }
  }

  ghost predicate Agree(a: map<int, string>, b: map<int, string>, id: int) {
    (id in a <==> id in b) && (id in a ==> a[id] == b[id])
  }

  lemma SameMap(a: map<int, string>, b: map<int, string>)
    requires forall id :: Agree(a, b, id)
    ensures a == b
  {
    forall id ensures (id in a <==> id in b) && (id in a ==> a[id] == b[id]) {
      assert Agree(a, b, id);
    }
  }

  /** An application is lost when its creator is dumped again without it: it stays indexed. */
  lemma RepeatedAddressDiffers()
    ensures var dump := [Account("A", 0, Some([App(7, "", "")])), Account("A", 0, Some([]))];
      Rebuild(map[], dump).appCreators != IndexAccounts(map[], Rebuild(map[], dump).accounts)
  {
    hide Rebuild, IndexAccounts;
    var dump := [Account("A", 0, Some([App(7, "", "")])), Account("A", 0, Some([]))];
    assert Listed(dump, 7) by { assert dump[0] in dump && AppsOf(dump[0])[0].id == 7; }
    assert !NotReplaced(dump, 0) by { assert dump[1].address == dump[0].address; }
    assert !HasApp(dump[1], 7);
    assert !Surviving(dump, 7);
    NestedIsOnePass(map[], dump);
  }

  // ----- the index agrees with the accounts -----

  ghost predicate UniqueIds(accounts: seq<Account>) {
    && (forall i, j, id ::
          0 <= i < |accounts| && 0 <= j < |accounts| && HasApp(accounts[i], id) && HasApp(accounts[j], id) ==> i == j)
    && (forall i :: 0 <= i < |accounts| ==> UniqueAppIds(AppsOf(accounts[i])))
  }

  ghost predicate UniqueAppIds(apps: seq<App>) {
    forall j, k :: 0 <= j < k < |apps| ==> apps[j].id != apps[k].id
  }

  /** The index finds what a linear search of the accounts finds. */
  ghost predicate IndexAgrees(s: State) {
    forall i, id :: 0 <= i < |s.accounts| && HasApp(s.accounts[i], id) ==>
      id in s.appCreators && s.appCreators[id] == s.accounts[i].address
  }

  ghost predicate AccountsOkay(s: State) {
    Distinct(s.accounts) && UniqueIds(s.accounts) && IndexAgrees(s)
  }

  /** What is assumed of the evaluator: addresses are distinct, application ids are never shared, and
      programs are reported under the names they were given. */
  ghost predicate Honest(kavm: Evaluator) {
    forall scenario :: kavm(scenario).Dump? ==>
      var accounts := SanitizeAccounts(kavm(scenario).accounts);
      Distinct(accounts) && UniqueIds(accounts) && NamesGiven(scenario.programs, accounts)
  }

  ghost predicate NamesGiven(programs: map<string, string>, accounts: seq<Account>) {
    forall i, j :: 0 <= i < |accounts| && 0 <= j < |AppsOf(accounts[i])| ==>
      var app := AppsOf(accounts[i])[j];
      && (app.approval == "" || app.approval in programs)
      && (app.clear == "" || app.clear in programs)
  }

  lemma {:induction false} LastOwnerIs(accounts: seq<Account>, i: nat, id: int)
    requires i < |accounts| && HasApp(accounts[i], id)
    requires forall j :: 0 <= j < |accounts| && HasApp(accounts[j], id) ==> j == i
    ensures LastOwner(accounts, id) == Some(accounts[i].address)
  {
    hide HasApp;
    var front := accounts[..|accounts| - 1];
    if i < |front| {
      assert front[i] == accounts[i];
      assert forall j :: 0 <= j < |front| ==> front[j] == accounts[j];
      LastOwnerIs(front, i, id);
    }
  }

  lemma DumpOkay(creators: map<int, string>, committed: map<string, string>, dir: map<string, string>,
                 dump: seq<Account>)
    requires Distinct(dump) && UniqueIds(dump)
    ensures var r := Rebuild(creators, dump);
      AccountsOkay(State(r.accounts, r.appCreators, committed, dir)) && r.accounts == dump
  {
    hide HasApp, Rebuild, IndexAccounts;
    RebuildIsOnePass(creators, dump);
    forall i, id | 0 <= i < |dump| && HasApp(dump[i], id)
      ensures id in IndexAccounts(creators, dump) && IndexAccounts(creators, dump)[id] == dump[i].address
    {
      IndexAccountsAt(creators, dump, id);
      LastOwnerIs(dump, i, id);
    }
  }

  lemma EmptyAddedOkay(s: State, t: State, txns: seq<Txn>)
    requires AccountsOkay(s)
    requires t.appCreators == s.appCreators
    requires OnlyEmptyAdded(s.accounts, t.accounts, txns)
    ensures AccountsOkay(t)
  {
  }

  lemma SubmitOkay(env: Env, s: State, txns: seq<Txn>)
    requires Honest(env.kavm) && AccountsOkay(s)
    ensures AccountsOkay(Submit(env, s, txns).state)
  {
    hide Construct, Discover, OnlyEmptyAdded, AccountsOkay, Rebuild, SanitizeAccounts;
    var t := Submit(env, s, txns).state;
    DiscoverKeeps(s.accounts, txns);
    var built := Construct(env, s.dir, Discover(s.accounts, txns), txns);
    if built.None? || env.kavm(built.value).Failed? {
      EmptyAddedOkay(s, t, txns);
    } else {
      var reply := env.kavm(built.value);
      DumpOkay(s.appCreators, t.committed, t.dir, SanitizeAccounts(reply.accounts));
    }
  }

  /** Where every client starts: the faucet account only. */
  ghost function Start(faucet: string, dir: map<string, string>): State {
    State([Account(faucet, FAUCET_ALGO_SUPPLY, None)], map[], map[], dir)
  }

  lemma {:induction false} RunOkay(env: Env, faucet: string, dir: map<string, string>,
                                   submissions: seq<seq<Txn>>)
    requires Honest(env.kavm)
    ensures AccountsOkay(Run(env, Start(faucet, dir), submissions))
  {
    hide Submit, Honest, AccountsOkay;
    if submissions == [] {
      StartOkay(faucet, dir);
    } else {
      var front := submissions[..|submissions| - 1];
      RunOkay(env, faucet, dir, front);
      SubmitOkay(env, Run(env, Start(faucet, dir), front), submissions[|submissions| - 1]);
    }
  }

  lemma StartOkay(faucet: string, dir: map<string, string>)
    ensures AccountsOkay(Start(faucet, dir))
  {
  }

  lemma {:induction false} FirstWithIdIs(apps: seq<App>, id: int)
    ensures var r := FirstWithId(apps, id);
      && (r.Found? <==> exists k :: 0 <= k < |apps| && apps[k].id == id)
      && (r.Found? ==> r.app in apps && r.app.id == id)
      && (r.Found? || r.NotCreated?)
  {
    if apps != [] && apps[0].id != id {
      FirstWithIdIs(apps[1..], id);
      if exists k :: 0 <= k < |apps| && apps[k].id == id {
        var k :| 0 <= k < |apps| && apps[k].id == id;
        assert apps[1..][k - 1].id == id;
      }
    }
  }

  /** After any run, an application lookup succeeds exactly for the ids that some tracked account has
      created, stale ids included, and then it returns that account's application. */
  lemma LookupIsSearch(env: Env, faucet: string, dir: map<string, string>,
                       submissions: seq<seq<Txn>>, id: int)
    requires Honest(env.kavm)
    ensures var s := Run(env, Start(faucet, dir), submissions);
      var r := ApplicationOf(s, id);
      && (r.Found? <==> exists i :: 0 <= i < |s.accounts| && HasApp(s.accounts[i], id))
      && (r.Found? ==> r.app.id == id)
      && (forall i, k | 0 <= i < |s.accounts| && 0 <= k < |AppsOf(s.accounts[i])| ::
            AppsOf(s.accounts[i])[k].id == id ==> r == Found(AppsOf(s.accounts[i])[k]))
  {
    hide Run, Start;
    RunOkay(env, faucet, dir, submissions);
    LookupInState(Run(env, Start(faucet, dir), submissions), id);
  }

  lemma LookupInState(s: State, id: int)
    requires AccountsOkay(s)
    ensures var r := ApplicationOf(s, id);
      && (r.Found? <==> exists i :: 0 <= i < |s.accounts| && HasApp(s.accounts[i], id))
      && (r.Found? ==> r.app.id == id)
      && (forall i, k | 0 <= i < |s.accounts| && 0 <= k < |AppsOf(s.accounts[i])| ::
            AppsOf(s.accounts[i])[k].id == id ==> r == Found(AppsOf(s.accounts[i])[k]))
  {
    hide FirstWithId, AccountOf;
    var r := ApplicationOf(s, id);
    forall i | 0 <= i < |s.accounts| && HasApp(s.accounts[i], id)
      ensures r == FirstWithId(AppsOf(s.accounts[i]), id) && r.Found?
    {
      forall j | 0 <= j < i ensures s.accounts[..i][j].address != s.accounts[i].address {
        assert s.accounts[..i][j] == s.accounts[j];
      }
      AccountAt(s.accounts, i);
      FirstWithIdIs(AppsOf(s.accounts[i]), id);
    }
    if r.Found? {
      var a := AccountOf(s.accounts, s.appCreators[id]).value;
      FirstWithIdIs(a.apps.value, id);
      assert HasApp(a, id);
    }
    forall i, k | 0 <= i < |s.accounts| && 0 <= k < |AppsOf(s.accounts[i])| && AppsOf(s.accounts[i])[k].id == id
      ensures r == Found(AppsOf(s.accounts[i])[k])
    {
      assert HasApp(s.accounts[i], id);
      FirstWithIdIs(AppsOf(s.accounts[i]), id);
      assert UniqueAppIds(AppsOf(s.accounts[i]));
    }
  }

  ghost predicate WithoutList(accounts: seq<Account>, address: string) {
    exists a :: a in accounts && a.address == address && a.apps.None?
  }

  ghost predicate ListWithout(accounts: seq<Account>, address: string, id: int) {
    exists a :: a in accounts && a.address == address && a.apps.Some? && !HasApp(a, id)
  }

  /** After any run, each of the four ways in which an application lookup fails has its exact
      condition: the id is not indexed; its indexed creator is not tracked; that account has no list of
      applications; or its list does not have the id. */
  lemma LookupErrors(env: Env, faucet: string, dir: map<string, string>, submissions: seq<seq<Txn>>, id: int)
    requires Honest(env.kavm)
    ensures var s := Run(env, Start(faucet, dir), submissions);
      var r := ApplicationOf(s, id);
      && (r.NotIndexed? <==> id !in s.appCreators)
      && (r.CreatorMissing? <==> id in s.appCreators && !Known(s.accounts, s.appCreators[id]))
      && (r.NoAppList? <==> id in s.appCreators && WithoutList(s.accounts, s.appCreators[id]))
      && (r.NotCreated? <==> id in s.appCreators && ListWithout(s.accounts, s.appCreators[id], id))
  {
    hide Run, Start;
    RunOkay(env, faucet, dir, submissions);
    LookupErrorsIn(Run(env, Start(faucet, dir), submissions), id);
  }

  lemma LookupErrorsIn(s: State, id: int)
    requires Distinct(s.accounts)
    ensures var r := ApplicationOf(s, id);
      && (r.NotIndexed? <==> id !in s.appCreators)
      && (r.CreatorMissing? <==> id in s.appCreators && !Known(s.accounts, s.appCreators[id]))
      && (r.NoAppList? <==> id in s.appCreators && WithoutList(s.accounts, s.appCreators[id]))
      && (r.NotCreated? <==> id in s.appCreators && ListWithout(s.accounts, s.appCreators[id], id))
  {
    hide FirstWithId, AccountOf;
    if id in s.appCreators {
      var found := AccountOf(s.accounts, s.appCreators[id]);
      if found.Some? {
        assert forall a :: a in s.accounts && a.address == s.appCreators[id] ==> a == found.value;
        assert HasApp(found.value, id) <==>
          exists k :: 0 <= k < |AppsOf(found.value)| && AppsOf(found.value)[k].id == id;
        FirstWithIdIs(AppsOf(found.value), id);
      } else {
        NotKnown(s.accounts, s.appCreators[id]);
      }
    }
  }

  lemma NotKnown(accounts: seq<Account>, address: string)
    requires !Known(accounts, address)
    ensures forall a :: a in accounts ==> a.address != address
  {
  }

  // ----- the program directory -----

  ghost predicate Injective(sha: Sha) {
    forall a, b :: sha(a) == sha(b) ==> a == b
  }

  /** The texts of the programs that these transactions carry. */
  ghost predicate Carries(txns: seq<Txn>, text: string) {
    exists i :: 0 <= i < |txns| && (IsText(txns[i].approval, text) || IsText(txns[i].clear, text))
  }

  ghost predicate IsText(source: seq<Byte>, text: string) {
    source != [] && AsciiBytes(source) && Chars(source) == text
  }

  ghost predicate Sent(submissions: seq<seq<Txn>>, text: string) {
    exists i :: 0 <= i < |submissions| && Carries(submissions[i], text)
  }

  /** What a file may hold of a text that was sent: the text, or the text as it is read back. The two
      differ only when there is a carriage return in it. */
  ghost predicate IsSource(sha: Sha, submissions: seq<seq<Txn>>, name: string, text: string, source: string) {
    && Sent(submissions, source) && name == NameOf(sha, source)
    && (text == source || ('\r' in source && text == ReadText(source)))
  }

  ghost predicate HasSource(sha: Sha, submissions: seq<seq<Txn>>, name: string, text: string) {
    exists source :: IsSource(sha, submissions, name, text, source)
  }

  /** `name` is empty, or the file of that name comes from a text that was sent and has that name. */
  ghost predicate Resolves(sha: Sha, dir: map<string, string>, submissions: seq<seq<Txn>>, name: string) {
    name != "" ==> name in dir && HasSource(sha, submissions, name, dir[name])
  }

  ghost predicate AllResolve(sha: Sha, s: State, submissions: seq<seq<Txn>>) {
    forall i, j :: 0 <= i < |s.accounts| && 0 <= j < |AppsOf(s.accounts[i])| ==>
      && Resolves(sha, s.dir, submissions, AppsOf(s.accounts[i])[j].approval)
      && Resolves(sha, s.dir, submissions, AppsOf(s.accounts[i])[j].clear)
  }

  /** Every program of a scenario comes from a text that was sent, and is filed under its name. */
  ghost predicate WellNamed(sha: Sha, programs: map<string, string>, submissions: seq<seq<Txn>>) {
    forall name :: name in programs ==> HasSource(sha, submissions, name, programs[name])
  }

  /** A field that can be extracted and whose text was sent. */
  ghost predicate GoodField(sha: Sha, dir: map<string, string>, submissions: seq<seq<Txn>>, field: string) {
    && FieldOk(sha, dir, field)
    && (field != "" ==>
          var p := Extract(sha, dir, field).value;
          HasSource(sha, submissions, p.name, p.text))
  }

  lemma ResolvedIsGood(sha: Sha, dir: map<string, string>, submissions: seq<seq<Txn>>, name: string)
    requires Resolves(sha, dir, submissions, name)
    ensures GoodField(sha, dir, submissions, name)
  {
    hide Sent, ReadText;
    if name != "" {
      var source :| IsSource(sha, submissions, name, dir[name], source);
      ReadTextIs(source);
      ReadTextTwice(source);
      assert IsSource(sha, submissions, name, ReadText(dir[name]), source);
    }
  }

  lemma SourceIsGood(sha: Sha, dir: map<string, string>, submissions: seq<seq<Txn>>, source: seq<Byte>)
    requires AsciiBytes(source) && source != [] ==> Sent(submissions, Chars(source))
    ensures FieldOk(sha, dir, B64EncodePadded(source)) ==> GoodField(sha, dir, submissions, B64EncodePadded(source))
    ensures FieldOk(sha, dir, B64EncodePadded(source)) <==> AsciiBytes(source)
  {
    hide Sent, Extract, B64EncodePadded;
    EncodedEmpty(source);
    if source != [] {
      ExtractEncoded(sha, dir, source);
      if AsciiBytes(source) {
        assert IsSource(sha, submissions, NameOf(sha, Chars(source)), Chars(source), Chars(source));
      }
    }
  }

  lemma RecordGood(sha: Sha, dir: map<string, string>, submissions: seq<seq<Txn>>, programs: map<string, string>,
                   field: string)
    requires WellNamed(sha, programs, submissions) && GoodField(sha, dir, submissions, field)
    ensures WellNamed(sha, Record(sha, dir, programs, field), submissions)
  {
  }

  lemma {:induction false} RecordAppsGood(sha: Sha, dir: map<string, string>, submissions: seq<seq<Txn>>,
                                          programs: map<string, string>, apps: seq<App>)
    requires WellNamed(sha, programs, submissions) && AppsOk(sha, dir, apps)
    requires forall j :: 0 <= j < |apps| ==>
      GoodField(sha, dir, submissions, apps[j].approval) && GoodField(sha, dir, submissions, apps[j].clear)
    ensures WellNamed(sha, RecordApps(sha, dir, programs, apps), submissions)
  {
    hide GoodField, FieldOk, WellNamed, Record;
    if apps != [] {
      var front, last := apps[..|apps| - 1], apps[|apps| - 1];
      RecordAppsGood(sha, dir, submissions, programs, front);
      var m := RecordApps(sha, dir, programs, front);
      RecordGood(sha, dir, submissions, m, last.approval);
      RecordGood(sha, dir, submissions, Record(sha, dir, m, last.approval), last.clear);
    }
  }

  lemma {:induction false} RecordAccountsGood(sha: Sha, dir: map<string, string>, submissions: seq<seq<Txn>>,
                                              accounts: seq<Account>)
    requires AccountsOk(sha, dir, accounts)
    requires forall i, j :: 0 <= i < |accounts| && 0 <= j < |AppsOf(accounts[i])| ==>
      && GoodField(sha, dir, submissions, AppsOf(accounts[i])[j].approval)
      && GoodField(sha, dir, submissions, AppsOf(accounts[i])[j].clear)
    ensures WellNamed(sha, RecordAccounts(sha, dir, accounts), submissions)
  {
    hide GoodField, FieldOk, AppsOk;
    if accounts != [] {
      var front, last := accounts[..|accounts| - 1], accounts[|accounts| - 1];
      RecordAccountsGood(sha, dir, submissions, front);
      RecordAppsGood(sha, dir, submissions, RecordAccounts(sha, dir, front), AppsOf(last));
    }
  }

  lemma {:induction false} RecordTxnsGood(sha: Sha, dir: map<string, string>, submissions: seq<seq<Txn>>,
                                          programs: map<string, string>, txns: seq<JsonTxn>)
    requires WellNamed(sha, programs, submissions) && TxnsOk(sha, dir, txns)
    requires forall j :: 0 <= j < |txns| ==>
      GoodField(sha, dir, submissions, txns[j].approval) && GoodField(sha, dir, submissions, txns[j].clear)
    ensures WellNamed(sha, RecordTxns(sha, dir, programs, txns), submissions)
  {
    hide GoodField, FieldOk, WellNamed, Record;
    if txns != [] {
      var front, last := txns[..|txns| - 1], txns[|txns| - 1];
      RecordTxnsGood(sha, dir, submissions, programs, front);
      var m := RecordTxns(sha, dir, programs, front);
      RecordGood(sha, dir, submissions, m, last.approval);
      RecordGood(sha, dir, submissions, Record(sha, dir, m, last.approval), last.clear);
    }
  }

  /** Writing well-named programs keeps every name that resolved before. */
  lemma StillResolves(sha: Sha, dir: map<string, string>, submissions: seq<seq<Txn>>,
                      programs: map<string, string>, name: string)
    requires WellNamed(sha, programs, submissions)
    requires Resolves(sha, dir, submissions, name) || name in programs
    ensures Resolves(sha, dir + programs, submissions, name)
  {
  }

  lemma SameName(sha: Sha, a: string, b: string)
    requires Injective(sha)
    requires NameOf(sha, a) == NameOf(sha, b)
    ensures a == b
  {
    var x, y := NameOf(sha, a), NameOf(sha, b);
    assert sha(a) == x[..|x| - 5] && sha(b) == y[..|y| - 5];
  }

  lemma SentMore(submissions: seq<seq<Txn>>, txns: seq<Txn>)
    ensures forall text :: Sent(submissions, text) ==> Sent(submissions + [txns], text)
    ensures forall text :: Carries(txns, text) ==> Sent(submissions + [txns], text)
  {
    hide Carries;
    var more := submissions + [txns];
    assert more[|submissions|] == txns;
    forall text | Sent(submissions, text) ensures Sent(more, text) {
      var i :| 0 <= i < |submissions| && Carries(submissions[i], text);
      assert more[i] == submissions[i];
    }
  }

  ghost predicate AllAscii(txns: seq<Txn>) {
    forall i :: 0 <= i < |txns| ==> AsciiBytes(txns[i].approval) && AsciiBytes(txns[i].clear)
  }

  lemma SourceSentMore(sha: Sha, submissions: seq<seq<Txn>>, txns: seq<Txn>, name: string, text: string)
    requires HasSource(sha, submissions, name, text)
    ensures HasSource(sha, submissions + [txns], name, text)
  {
    hide Sent, ReadText;
    SentMore(submissions, txns);
    var source :| IsSource(sha, submissions, name, text, source);
    assert IsSource(sha, submissions + [txns], name, text, source);
  }

  lemma ResolvesMore(sha: Sha, s: State, submissions: seq<seq<Txn>>, txns: seq<Txn>)
    requires AllResolve(sha, s, submissions)
    ensures AllResolve(sha, s, submissions + [txns])
  {
    hide HasSource;
    forall name, text | HasSource(sha, submissions, name, text)
      ensures HasSource(sha, submissions + [txns], name, text)
    {
      SourceSentMore(sha, submissions, txns, name, text);
    }
  }

  /** The accounts made up by the client have no programs. */
  lemma DiscoveredResolve(sha: Sha, s: State, submissions: seq<seq<Txn>>, txns: seq<Txn>)
    requires AllResolve(sha, s, submissions)
    ensures AllResolve(sha, s.(accounts := Discover(s.accounts, txns)), submissions)
  {
    hide Discover, Resolves, Total, Known, Mentioned;
    DiscoverKeeps(s.accounts, txns);
    var known := Discover(s.accounts, txns);
    assert forall i :: |s.accounts| <= i < |known| ==> AppsOf(known[i]) == [];
    assert forall i :: 0 <= i < |s.accounts| ==> known[i] == s.accounts[i];
  }

  lemma ResolvedAreGood(sha: Sha, s: State, submissions: seq<seq<Txn>>)
    requires AllResolve(sha, s, submissions)
    ensures AccountsOk(sha, s.dir, s.accounts)
    ensures WellNamed(sha, RecordAccounts(sha, s.dir, s.accounts), submissions)
  {
    hide Resolves, GoodField, FieldOk, WellNamed, RecordAccounts;
    forall i, j | 0 <= i < |s.accounts| && 0 <= j < |AppsOf(s.accounts[i])|
      ensures var app := AppsOf(s.accounts[i])[j];
        && GoodField(sha, s.dir, submissions, app.approval) && FieldOk(sha, s.dir, app.approval)
        && GoodField(sha, s.dir, submissions, app.clear) && FieldOk(sha, s.dir, app.clear)
    {
      var app := AppsOf(s.accounts[i])[j];
      ResolvedIsGood(sha, s.dir, submissions, app.approval);
      ResolvedIsGood(sha, s.dir, submissions, app.clear);
      GoodIsOk(sha, s.dir, submissions, app.approval);
      GoodIsOk(sha, s.dir, submissions, app.clear);
    }
    RecordAccountsGood(sha, s.dir, submissions, s.accounts);
  }

  lemma GoodIsOk(sha: Sha, dir: map<string, string>, submissions: seq<seq<Txn>>, field: string)
    requires GoodField(sha, dir, submissions, field)
    ensures FieldOk(sha, dir, field)
  {
  }

  lemma CarriedAreGood(sha: Sha, dir: map<string, string>, submissions: seq<seq<Txn>>, txns: seq<Txn>,
                       json: seq<JsonTxn>, programs: map<string, string>)
    requires Encodes(json, txns) && WellNamed(sha, programs, submissions + [txns])
    ensures TxnsOk(sha, dir, json) <==> AllAscii(txns)
    ensures TxnsOk(sha, dir, json) ==> WellNamed(sha, RecordTxns(sha, dir, programs, json), submissions + [txns])
  {
    hide Sent, WellNamed, RecordTxns, FieldOk, GoodField, B64EncodePadded, AsciiBytes;
    var more := submissions + [txns];
    SentMore(submissions, txns);
    forall i | 0 <= i < |txns|
      ensures FieldOk(sha, dir, json[i].approval) <==> AsciiBytes(txns[i].approval)
      ensures FieldOk(sha, dir, json[i].clear) <==> AsciiBytes(txns[i].clear)
      ensures FieldOk(sha, dir, json[i].approval) ==> GoodField(sha, dir, more, json[i].approval)
      ensures FieldOk(sha, dir, json[i].clear) ==> GoodField(sha, dir, more, json[i].clear)
    {
      CarriedSource(txns, i);
      SourceIsGood(sha, dir, more, txns[i].approval);
      SourceIsGood(sha, dir, more, txns[i].clear);
    }
    if TxnsOk(sha, dir, json) {
      RecordTxnsGood(sha, dir, more, programs, json);
    }
  }

  lemma CarriedSource(txns: seq<Txn>, i: nat)
    requires i < |txns|
    ensures AsciiBytes(txns[i].approval) && txns[i].approval != [] ==> Carries(txns, Chars(txns[i].approval))
    ensures AsciiBytes(txns[i].clear) && txns[i].clear != [] ==> Carries(txns, Chars(txns[i].clear))
  {
  }

  /** Every program source is ASCII, and every dictionary has a JSON form and all that its type needs. */
  ghost predicate Submittable(txns: seq<Txn>) {
    AllAscii(txns) && AllSendable(txns)
  }

  /** With every tracked name resolving, a scenario can be built exactly for a submittable group, and
      then every program in it was sent and is filed under its own name. */
  lemma ScenarioPrograms(env: Env, s: State, submissions: seq<seq<Txn>>, txns: seq<Txn>)
    requires AllResolve(env.sha, s, submissions)
    ensures var built := Construct(env, s.dir, Discover(s.accounts, txns), txns);
      && (built.Some? <==> Submittable(txns))
      && (built.Some? ==> WellNamed(env.sha, built.value.programs, submissions + [txns]))
  {
    hide AllResolve, WellNamed, Discover, RecordAccounts, RecordTxns, AccountsOk, TxnsOk, AllAscii, AllSendable,
         Encodes, Construct, RenameAccounts;
    var known := Discover(s.accounts, txns);
    ResolvesMore(env.sha, s, submissions, txns);
    DiscoveredResolve(env.sha, s, submissions + [txns], txns);
    ResolvedAreGood(env.sha, s.(accounts := known), submissions + [txns]);
    var json := ConstructIs(env, s.dir, known, txns);
    if AllSendable(txns) {
      CarriedAreGood(env.sha, s.dir, submissions, txns, json, RecordAccounts(env.sha, s.dir, known));
    }
  }

  // Three asset configurations: the destruction of an asset, the creation of one that nobody manages,
  // and the creation of one whose manager is given, as the SDK gives addresses, in bytes.
  const DESTROY := [Field("type", Str("acfg")), Field("caid", Number(7))]

  const UNMANAGED := [Field("type", Str("acfg")), Field("apar", Dict([Field("t", Number(1))]))]

  function Managed(key: seq<Byte>): seq<Field> {
    [Field("type", Str("acfg")), Field("apar", Dict([Field("t", Number(1)), Field("m", Bytes(key))]))]
  }

  /** They carry no program at all, and still no scenario can be built for them, in any state. */
  lemma AsciiIsNotEnough(env: Env, s: State, sender: string, key: seq<Byte>, fields: seq<Field>)
    requires fields == DESTROY || fields == UNMANAGED || fields == Managed(key)
    ensures var group := [Txn(sender, None, [], [], fields)];
      AllAscii(group) && Submit(env, s, group).answer.ScenarioError?
  {
    hide Construct, Discover, Get, IsJson;
    var group := [Txn(sender, None, [], [], fields)];
    assert !Sendable(fields) by {
      GetFirst(fields, 0, "type");
      if fields == DESTROY {
        GetFirst(DESTROY, 2, "apar");
      } else if fields == UNMANAGED {
        GetFirst(UNMANAGED, 1, "apar");
        GetFirst([Field("t", Number(1))], 1, "m");
        GetFirst([Field("t", Number(1))], 1, "c");
      } else {
        assert !IsJson(Bytes(key)) by { BytesAreNoJson(key); }
        assert fields[1].value.fields[1] == Field("m", Bytes(key));
        assert !Jsonable(fields[1].key, fields[1].value);
      }
    }
    assert group[0].fields == fields;
    var json := ConstructIs(env, s.dir, Discover(s.accounts, group), group);
  }

  lemma BytesAreNoJson(b: seq<Byte>)
    ensures !IsJson(Bytes(b))
  {
  }

  lemma SubmitResolves(env: Env, s: State, submissions: seq<seq<Txn>>, txns: seq<Txn>)
    requires Honest(env.kavm)
    requires AllResolve(env.sha, s, submissions)
    ensures AllResolve(env.sha, Submit(env, s, txns).state, submissions + [txns])
  {
    hide HasSource, WellNamed, Discover, Construct, Rebuild, SanitizeAccounts, Resolves, Submittable;
    var more := submissions + [txns];
    var t := Submit(env, s, txns).state;
    var known := Discover(s.accounts, txns);
    var built := Construct(env, s.dir, known, txns);
    ScenarioPrograms(env, s, submissions, txns);
    ResolvesMore(env.sha, s, submissions, txns);
    DiscoveredResolve(env.sha, s, more, txns);
    if built.Some? {
      var programs := built.value.programs;
      if env.kavm(built.value).Dump? {
        RebuildIsOnePass(s.appCreators, SanitizeAccounts(env.kavm(built.value).accounts));
      }
      forall i, j | 0 <= i < |t.accounts| && 0 <= j < |AppsOf(t.accounts[i])|
        ensures Resolves(env.sha, t.dir, more, AppsOf(t.accounts[i])[j].approval)
        ensures Resolves(env.sha, t.dir, more, AppsOf(t.accounts[i])[j].clear)
      {
        var app := AppsOf(t.accounts[i])[j];
        EmptyResolves(env.sha, t.dir, more);
        if app.approval != "" { StillResolves(env.sha, s.dir, more, programs, app.approval); }
        if app.clear != "" { StillResolves(env.sha, s.dir, more, programs, app.clear); }
      }
    }
  }

  lemma EmptyResolves(sha: Sha, dir: map<string, string>, submissions: seq<seq<Txn>>)
    ensures Resolves(sha, dir, submissions, "")
  {
  }

  /** Over every run, failed submissions included: every program name in the tracked accounts is the
      name of a text that was sent, and its file holds that text but possibly for carriage returns; and
      only a group that is not submittable fails before it is evaluated. */
  lemma {:induction false} NamesResolve(env: Env, faucet: string, dir: map<string, string>,
                                        submissions: seq<seq<Txn>>)
    requires Honest(env.kavm)
    ensures var s := Run(env, Start(faucet, dir), submissions);
      && AllResolve(env.sha, s, submissions)
      && forall txns :: Submit(env, s, txns).answer.ScenarioError? <==> !Submittable(txns)
  {
    hide Submit, AllResolve, Honest, Submittable;
    var s := Run(env, Start(faucet, dir), submissions);
    if submissions == [] {
      StartResolves(env.sha, faucet, dir);
    } else {
      var front, last := submissions[..|submissions| - 1], submissions[|submissions| - 1];
      NamesResolve(env, faucet, dir, front);
      SubmitResolves(env, Run(env, Start(faucet, dir), front), front, last);
      assert front + [last] == submissions;
    }
    forall txns ensures Submit(env, s, txns).answer.ScenarioError? <==> !Submittable(txns) {
      ScenarioPrograms(env, s, submissions, txns);
      ScenarioErrorIs(env, s, txns);
    }
  }

  lemma StartResolves(sha: Sha, faucet: string, dir: map<string, string>)
    ensures AllResolve(sha, Start(faucet, dir), [])
  {
  }

  lemma ScenarioErrorIs(env: Env, s: State, txns: seq<Txn>)
    ensures Submit(env, s, txns).answer.ScenarioError?
       <==> Construct(env, s.dir, Discover(s.accounts, txns), txns).None?
  {
    hide Construct, Discover, Rebuild;
  }

  // ----- runs without carriage returns -----

  /** No source that was submitted has a byte 13. */
  ghost predicate NoReturns(submissions: seq<seq<Txn>>) {
    forall i, j :: 0 <= i < |submissions| && 0 <= j < |submissions[i]| ==>
      13 !in submissions[i][j].approval && 13 !in submissions[i][j].clear
  }

  /** `name` is empty, or the file of that name holds exactly a text that was sent and has that name. */
  ghost predicate ResolvesExactly(sha: Sha, dir: map<string, string>, submissions: seq<seq<Txn>>, name: string) {
    name != "" ==> name in dir && Sent(submissions, dir[name]) && name == NameOf(sha, dir[name])
  }

  lemma SentWithoutReturns(submissions: seq<seq<Txn>>, text: string)
    requires NoReturns(submissions) && Sent(submissions, text)
    ensures '\r' !in text
  {
  }

  /** When no source has a carriage return, every tracked name resolves to exactly a text that was sent. */
  lemma NamesResolveExactly(env: Env, faucet: string, dir: map<string, string>, submissions: seq<seq<Txn>>)
    requires Honest(env.kavm) && NoReturns(submissions)
    ensures var s := Run(env, Start(faucet, dir), submissions);
      forall i, j :: 0 <= i < |s.accounts| && 0 <= j < |AppsOf(s.accounts[i])| ==>
        && ResolvesExactly(env.sha, s.dir, submissions, AppsOf(s.accounts[i])[j].approval)
        && ResolvesExactly(env.sha, s.dir, submissions, AppsOf(s.accounts[i])[j].clear)
  {
    hide Run, Honest, NoReturns, Sent, Submit, Submittable;
    NamesResolve(env, faucet, dir, submissions);
    var s := Run(env, Start(faucet, dir), submissions);
    forall name | Resolves(env.sha, s.dir, submissions, name)
      ensures ResolvesExactly(env.sha, s.dir, submissions, name)
    {
      if name != "" {
        var source :| IsSource(env.sha, submissions, name, s.dir[name], source);
        SentWithoutReturns(submissions, source);
      }
    }
  }

  // ----- what a file holds after a later submission -----

  lemma RecordSource(sha: Sha, dir: map<string, string>, programs: map<string, string>, source: seq<Byte>,
                     text: string)
    requires Injective(sha)
    requires FieldOk(sha, dir, B64EncodePadded(source))
    ensures var m := Record(sha, dir, programs, B64EncodePadded(source));
      var name := NameOf(sha, text);
      if IsText(source, text) then name in m && m[name] == text
      else (name in m <==> name in programs) && (name in m ==> m[name] == programs[name])
  {
    hide B64EncodePadded, Extract, Injective, NameOf;
    EncodedEmpty(source);
    if source != [] {
      ExtractEncoded(sha, dir, source);
      if NameOf(sha, text) == NameOf(sha, Chars(source)) {
        SameName(sha, text, Chars(source));
      }
    }
  }

  /** Recording the transactions puts each text that they carry under its name, and nothing else. */
  lemma {:induction false} RecordTxnsAt(sha: Sha, dir: map<string, string>, programs: map<string, string>,
                                        txns: seq<Txn>, json: seq<JsonTxn>, text: string)
    requires Injective(sha)
    requires Encodes(json, txns) && TxnsOk(sha, dir, json)
    ensures var m := RecordTxns(sha, dir, programs, json);
      var name := NameOf(sha, text);
      if Carries(txns, text) then name in m && m[name] == text
      else (name in m <==> name in programs) && (name in m ==> m[name] == programs[name])
  {
    hide FieldOk, Record, Injective, NameOf, IsText, B64EncodePadded;
    if txns != [] {
      var front, last := txns[..|txns| - 1], txns[|txns| - 1];
      RecordTxnsAt(sha, dir, programs, front, json[..|txns| - 1], text);
      var m := RecordTxns(sha, dir, programs, json[..|txns| - 1]);
      RecordSource(sha, dir, m, last.approval, text);
      RecordSource(sha, dir, Record(sha, dir, m, json[|txns| - 1].approval), last.clear, text);
      CarriesLast(txns, text);
    }
  }

  lemma CarriesLast(txns: seq<Txn>, text: string)
    requires txns != []
    ensures var front, last := txns[..|txns| - 1], txns[|txns| - 1];
      Carries(txns, text) <==> Carries(front, text) || IsText(last.approval, text) || IsText(last.clear, text)
  {
  }

  /** All program fields are empty or file names. */
  ghost predicate Filed(apps: seq<App>) {
    forall j :: 0 <= j < |apps| ==>
      && (apps[j].approval == "" || IsFileName(apps[j].approval))
      && (apps[j].clear == "" || IsFileName(apps[j].clear))
  }

  ghost predicate NamesApp(apps: seq<App>, name: string) {
    exists j :: 0 <= j < |apps| && (apps[j].approval == name || apps[j].clear == name)
  }

  /** The programs recorded of files are what is read from them. */
  ghost predicate AllRead(programs: map<string, string>, dir: map<string, string>) {
    forall name :: name in programs ==> name in dir && programs[name] == ReadText(dir[name])
  }

  lemma RecordRead(sha: Sha, dir: map<string, string>, programs: map<string, string>, field: string)
    requires FieldOk(sha, dir, field) && (field == "" || IsFileName(field))
    requires AllRead(programs, dir)
    ensures var m := Record(sha, dir, programs, field);
      AllRead(m, dir) && m.Keys == programs.Keys + (if field == "" then {} else {field})
  {
  }

  lemma {:induction false} RecordAppsRead(sha: Sha, dir: map<string, string>, programs: map<string, string>,
                                          apps: seq<App>, name: string)
    requires AppsOk(sha, dir, apps) && Filed(apps) && name != ""
    requires AllRead(programs, dir)
    ensures var m := RecordApps(sha, dir, programs, apps);
      AllRead(m, dir) && (name in m <==> name in programs || NamesApp(apps, name))
  {
    hide FieldOk, Record, AllRead, IsFileName;
    if apps != [] {
      var front, last := apps[..|apps| - 1], apps[|apps| - 1];
      RecordAppsRead(sha, dir, programs, front, name);
      var m := RecordApps(sha, dir, programs, front);
      RecordRead(sha, dir, m, last.approval);
      RecordRead(sha, dir, Record(sha, dir, m, last.approval), last.clear);
      assert front + [last] == apps;
      NamesLast(front, last, name);
    }
  }

  lemma NamesLast(front: seq<App>, last: App, name: string)
    ensures NamesApp(front + [last], name) <==> NamesApp(front, name) || last.approval == name || last.clear == name
  {
    var apps := front + [last];
    assert apps[|front|] == last;
    if NamesApp(front, name) {
      var j :| 0 <= j < |front| && (front[j].approval == name || front[j].clear == name);
      assert apps[j] == front[j];
    }
    if NamesApp(apps, name) {
      var j :| 0 <= j < |apps| && (apps[j].approval == name || apps[j].clear == name);
      assert j < |front| ==> front[j] == apps[j];
    }
  }

  /** Some account has an application whose program has this name. */
  ghost predicate Tracked(accounts: seq<Account>, name: string) {
    exists i :: 0 <= i < |accounts| && NamesApp(AppsOf(accounts[i]), name)
  }

  lemma {:induction false} RecordAccountsRead(sha: Sha, dir: map<string, string>, accounts: seq<Account>, name: string)
    requires AccountsOk(sha, dir, accounts) && name != ""
    requires forall i :: 0 <= i < |accounts| ==> Filed(AppsOf(accounts[i]))
    ensures var m := RecordAccounts(sha, dir, accounts);
      AllRead(m, dir) && (name in m <==> Tracked(accounts, name))
  {
    hide AppsOk, AllRead, Filed, NamesApp, RecordApps;
    if accounts != [] {
      var front, last := accounts[..|accounts| - 1], accounts[|accounts| - 1];
      RecordAccountsRead(sha, dir, front, name);
      RecordAppsRead(sha, dir, RecordAccounts(sha, dir, front), AppsOf(last), name);
      if Tracked(accounts, name) {
        var i :| 0 <= i < |accounts| && NamesApp(AppsOf(accounts[i]), name);
        assert i < |front| ==> front[i] == accounts[i];
      }
    } else {
      assert AllRead(map[], dir) by { NothingRead(dir); }
    }
  }

  lemma NothingRead(dir: map<string, string>)
    ensures AllRead(map[], dir)
  {
  }

  lemma ResolvedAreFiled(sha: Sha, s: State, submissions: seq<seq<Txn>>)
    requires AllResolve(sha, s, submissions)
    ensures forall i :: 0 <= i < |s.accounts| ==> Filed(AppsOf(s.accounts[i]))
  {
  }

  /** The programs of a submittable group's scenario: a text that the group carries is written as it
      is, and any other file of a tracked program is written as it is read. */
  lemma ProgramsAt(env: Env, s: State, submissions: seq<seq<Txn>>, txns: seq<Txn>, text: string)
    requires Injective(env.sha) && AllResolve(env.sha, s, submissions) && Submittable(txns)
    ensures var built := Construct(env, s.dir, Discover(s.accounts, txns), txns);
      var name := NameOf(env.sha, text);
      && built.Some?
      && (Carries(txns, text) ==> name in built.value.programs && built.value.programs[name] == text)
      && (!Carries(txns, text) ==>
           && (name in built.value.programs <==> Tracked(Discover(s.accounts, txns), name))
           && (name in built.value.programs ==>
                name in s.dir && built.value.programs[name] == ReadText(s.dir[name])))
  {
    hide AllResolve, WellNamed, Discover, RecordAccounts, RecordTxns, AllAscii, AllSendable, Injective, AccountsOk,
         TxnsOk, Encodes, Construct, RenameAccounts, Carries, Tracked, ReadText, Filed;
    var known := Discover(s.accounts, txns);
    ScenarioPrograms(env, s, submissions, txns);
    DiscoveredResolve(env.sha, s, submissions, txns);
    ResolvedAreFiled(env.sha, s.(accounts := known), submissions);
    var json := ConstructIs(env, s.dir, known, txns);
    RecordAccountsRead(env.sha, s.dir, known, NameOf(env.sha, text));
    RecordTxnsAt(env.sha, s.dir, RecordAccounts(env.sha, s.dir, known), txns, json, text);
  }

  lemma TrackedMore(accounts: seq<Account>, txns: seq<Txn>, name: string)
    requires name != ""
    ensures Tracked(Discover(accounts, txns), name) <==> Tracked(accounts, name)
  {
    hide Discover, Total, Known, Mentioned, NamesApp;
    DiscoverKeeps(accounts, txns);
    var known := Discover(accounts, txns);
    if Tracked(accounts, name) {
      var i :| 0 <= i < |accounts| && NamesApp(AppsOf(accounts[i]), name);
      assert known[i] == accounts[i];
    }
    if Tracked(known, name) {
      var i :| 0 <= i < |known| && NamesApp(AppsOf(known[i]), name);
      if |accounts| <= i {
        assert AppsOf(known[i]) == [];
        assert !NamesApp([], name) by { NothingNamed(name); }
      }
    }
  }

  lemma NothingNamed(name: string)
    ensures !NamesApp([], name)
  {
  }

  lemma TrackedHasSource(sha: Sha, s: State, submissions: seq<seq<Txn>>, text: string)
    requires Injective(sha) && AllResolve(sha, s, submissions) && Tracked(s.accounts, NameOf(sha, text))
    ensures var name := NameOf(sha, text);
      name in s.dir && (s.dir[name] == text || s.dir[name] == ReadText(text))
  {
    hide Injective, Sent, ReadText;
    var name := NameOf(sha, text);
    assert Resolves(sha, s.dir, submissions, name);
    var source :| IsSource(sha, submissions, name, s.dir[name], source);
    SameName(sha, source, text);
  }

  /** After a submittable group, whatever the evaluator answers, the file of a program that was tracked
      holds its text as it was sent exactly when there is no carriage return in it, or the group
      carries it again; otherwise it holds what is read back. */
  lemma FileAfterSubmission(env: Env, s: State, submissions: seq<seq<Txn>>, txns: seq<Txn>, text: string)
    requires Injective(env.sha) && AllResolve(env.sha, s, submissions)
    requires Submittable(txns) && Tracked(s.accounts, NameOf(env.sha, text))
    ensures var dir := Submit(env, s, txns).state.dir;
      var name := NameOf(env.sha, text);
      && name in dir
      && dir[name] == (if Carries(txns, text) then text else ReadText(text))
      && (dir[name] == text <==> '\r' !in text || Carries(txns, text))
  {
    hide Injective, AllResolve, Submittable, Carries, Tracked, Construct, Discover, Rebuild, ReadText;
    ProgramsAt(env, s, submissions, txns, text);
    TrackedMore(s.accounts, txns, NameOf(env.sha, text));
    TrackedHasSource(env.sha, s, submissions, text);
    ReadTextIs(text);
    ReadTextTwice(text);
  }

  /** The same after any run. */
  lemma FileAfterRun(env: Env, faucet: string, dir: map<string, string>, submissions: seq<seq<Txn>>,
                     txns: seq<Txn>, text: string)
    requires Injective(env.sha) && Honest(env.kavm)
    requires Tracked(Run(env, Start(faucet, dir), submissions).accounts, NameOf(env.sha, text))
    requires Submittable(txns)
    ensures var after := Run(env, Start(faucet, dir), submissions + [txns]).dir;
      var name := NameOf(env.sha, text);
      name in after && (after[name] == text <==> '\r' !in text || Carries(txns, text))
  {
    hide Honest, Injective, AllResolve, Submittable, Carries, Tracked, Submit, ReadText;
    NamesResolve(env, faucet, dir, submissions);
    assert (submissions + [txns])[..|submissions|] == submissions;
    FileAfterSubmission(env, Run(env, Start(faucet, dir), submissions), submissions, txns, text);
  }

  // ----- what a scenario says -----

  ghost predicate SameApps(sc: Scenario, before: Account, after: Account) {
    && after.address == before.address && after.amount == before.amount && after.apps.Some?
    && after.apps.value == (if before.apps.Some? then before.apps.value else [])
    && forall j :: 0 <= j < |after.apps.value| ==>
      && (after.apps.value[j].approval != "" ==> after.apps.value[j].approval in sc.programs)
      && (after.apps.value[j].clear != "" ==> after.apps.value[j].clear in sc.programs)
  }

  ghost predicate AccountsListed(sc: Scenario, accounts: seq<Account>) {
    |sc.accounts| == |accounts| && forall i :: 0 <= i < |accounts| ==> SameApps(sc, accounts[i], sc.accounts[i])
  }

  /** `name` is the name of a program source in a scenario that has it. */
  ghost predicate Names(sha: Sha, sc: Scenario, name: string, source: seq<Byte>) {
    if source == [] then name == "" else name == sha(Chars(source)) + ".teal" && name in sc.programs
  }

  ghost predicate TxnsListed(env: Env, sc: Scenario, txns: seq<Txn>) {
    && |sc.txns| == |txns|
    && forall i :: 0 <= i < |txns| ==>
      && Names(env.sha, sc, sc.txns[i].approval, txns[i].approval)
      && Names(env.sha, sc, sc.txns[i].clear, txns[i].clear)
      && Sanitized(env.hash, txns[i].fields).Some?
      && Defaults(Sanitized(env.hash, txns[i].fields).value) == Some(sc.txns[i].fields)
  }

  lemma RenameAppsSame(sha: Sha, dir: map<string, string>, apps: seq<App>)
    requires AppsOk(sha, dir, apps) && Filed(apps)
    ensures RenameApps(sha, dir, apps) == apps
  {
  }

  lemma RecordKeeps(sha: Sha, dir: map<string, string>, programs: map<string, string>, field: string)
    requires FieldOk(sha, dir, field)
    ensures programs.Keys <= Record(sha, dir, programs, field).Keys
    ensures field != "" ==> Rename(sha, dir, field) in Record(sha, dir, programs, field)
  {
    hide Extract;
  }

  lemma {:induction false} RecordTxnsHas(sha: Sha, dir: map<string, string>, programs: map<string, string>,
                                         json: seq<JsonTxn>)
    requires TxnsOk(sha, dir, json)
    ensures var m := RecordTxns(sha, dir, programs, json);
      && programs.Keys <= m.Keys
      && forall i :: 0 <= i < |json| ==>
        && (json[i].approval != "" ==> Rename(sha, dir, json[i].approval) in m)
        && (json[i].clear != "" ==> Rename(sha, dir, json[i].clear) in m)
  {
    hide FieldOk, Record, Rename;
    if json != [] {
      var front, last := json[..|json| - 1], json[|json| - 1];
      RecordTxnsHas(sha, dir, programs, front);
      var m := RecordTxns(sha, dir, programs, front);
      RecordKeeps(sha, dir, m, last.approval);
      RecordKeeps(sha, dir, Record(sha, dir, m, last.approval), last.clear);
      assert forall i :: 0 <= i < |front| ==> json[i] == front[i];
    }
  }

  lemma AccountListed(sha: Sha, dir: map<string, string>, known: seq<Account>, sc: Scenario, i: nat)
    requires AccountsOk(sha, dir, known) && forall k :: 0 <= k < |known| ==> Filed(AppsOf(known[k]))
    requires sc.accounts == RenameAccounts(sha, dir, known)
    requires RecordAccounts(sha, dir, known).Keys <= sc.programs.Keys
    requires i < |known|
    ensures SameApps(sc, known[i], sc.accounts[i])
  {
    hide AppsOk, RenameApps, Filed, RecordAccounts;
    var apps := AppsOf(known[i]);
    RenameAppsSame(sha, dir, apps);
    forall j | 0 <= j < |apps|
      ensures apps[j].approval != "" ==> apps[j].approval in sc.programs
      ensures apps[j].clear != "" ==> apps[j].clear in sc.programs
    {
      if apps[j].approval != "" { RecordAccountsRead(sha, dir, known, apps[j].approval); }
      if apps[j].clear != "" { RecordAccountsRead(sha, dir, known, apps[j].clear); }
      assert NamesApp(apps, apps[j].approval) && NamesApp(apps, apps[j].clear);
    }
  }

  lemma TxnListed(env: Env, dir: map<string, string>, programs: map<string, string>, json: seq<JsonTxn>,
                  sc: Scenario, txns: seq<Txn>, i: nat)
    requires TxnsOk(env.sha, dir, json) && Encodes(json, txns) && Completed(env.hash, json, txns)
    requires sc.txns == RenameTxns(env.sha, dir, json)
    requires sc.programs == RecordTxns(env.sha, dir, programs, json)
    requires i < |txns|
    ensures Names(env.sha, sc, sc.txns[i].approval, txns[i].approval)
    ensures Names(env.sha, sc, sc.txns[i].clear, txns[i].clear)
    ensures sc.txns[i].fields == json[i].fields
  {
    hide FieldOk, Rename, RecordTxns, B64EncodePadded, Chars, Completed;
    RecordTxnsHas(env.sha, dir, programs, json);
    SourceIsRenamed(env.sha, dir, txns[i].approval);
    SourceIsRenamed(env.sha, dir, txns[i].clear);
    EncodedEmpty(txns[i].approval);
    EncodedEmpty(txns[i].clear);
  }

  /** What a scenario says, in every state that a run can reach. Accounts keep their addresses, amounts,
      applications and program names. Each transaction has the name of its own approval and clear-state
      program, and its other entries as text, completed. Every program named is among the programs. */
  lemma ScenarioIs(env: Env, s: State, submissions: seq<seq<Txn>>, txns: seq<Txn>)
    requires AllResolve(env.sha, s, submissions) && Submittable(txns)
    ensures var built := Construct(env, s.dir, Discover(s.accounts, txns), txns);
      built.Some? && AccountsListed(built.value, Discover(s.accounts, txns)) && TxnsListed(env, built.value, txns)
  {
    hide AllResolve, WellNamed, Discover, RecordAccounts, RecordTxns, AccountsOk, TxnsOk, Submittable, Sendable,
         Encodes, Construct, RenameAccounts, RenameTxns, SameApps, Names, Filed;
    var known := Discover(s.accounts, txns);
    ScenarioPrograms(env, s, submissions, txns);
    DiscoveredResolve(env.sha, s, submissions, txns);
    ResolvedAreFiled(env.sha, s.(accounts := known), submissions);
    var json := ConstructIs(env, s.dir, known, txns);
    var sc := Construct(env, s.dir, known, txns).value;
    RecordTxnsHas(env.sha, s.dir, RecordAccounts(env.sha, s.dir, known), json);
    assert |sc.accounts| == |known| by { RenamedLength(env.sha, s.dir, known); }
    forall i | 0 <= i < |known| ensures SameApps(sc, known[i], sc.accounts[i]) {
      AccountListed(env.sha, s.dir, known, sc, i);
    }
    forall i | 0 <= i < |txns|
      ensures Names(env.sha, sc, sc.txns[i].approval, txns[i].approval)
      ensures Names(env.sha, sc, sc.txns[i].clear, txns[i].clear)
      ensures sc.txns[i].fields == json[i].fields
    {
      TxnListed(env, s.dir, RecordAccounts(env.sha, s.dir, known), json, sc, txns, i);
    }
  }

  lemma RenamedLength(sha: Sha, dir: map<string, string>, accounts: seq<Account>)
    requires AccountsOk(sha, dir, accounts)
    ensures |RenameAccounts(sha, dir, accounts)| == |accounts|
  {
  }

  // ----- a text that is lost -----

  const RETURNS := "#pragma version 6\r\nint 1\r\n"
  const NO_RETURNS := "#pragma version 6\nint 1\n"

  lemma {:induction false} ReadTextLine(line: string, rest: string)
    requires '\r' !in line
    ensures ReadText(line + "\r\n" + rest) == line + "\n" + ReadText(rest)
  {
    if line == "" {
      assert line + "\r\n" + rest == "\r\n" + rest;
      assert ("\r\n" + rest)[2..] == rest;
    } else {
      assert (line + "\r\n" + rest)[1..] == line[1..] + "\r\n" + rest;
      ReadTextLine(line[1..], rest);
    }
  }

  lemma ReturnsRead()
    ensures ReadText(RETURNS) == NO_RETURNS && RETURNS != NO_RETURNS
  {
    hide ReadText;
    ReadTextLine("#pragma version 6", "int 1\r\n");
    ReadTextLine("int 1", "");
    assert RETURNS == "#pragma version 6" + "\r\n" + "int 1\r\n";
    assert "int 1\r\n" == "int 1" + "\r\n" + "";
    assert ReadText("") == "" by { ReadTextIs(""); }
    assert |RETURNS| != |NO_RETURNS|;
  }

  /** An evaluator that creates one application with the program above. */
  function Echo(sha: Sha): Evaluator {
    (scenario: Scenario) =>
      if NameOf(sha, RETURNS) in scenario.programs then
        Dump([Account("creator", 0, Some([App(1, NameOf(sha, RETURNS), "")]))], [("0", "")])
      else Failed
  }

  lemma EchoIsHonest(sha: Sha)
    ensures Honest(Echo(sha))
  {
  }

  /** The program is sent and filed, and then any other submittable group, even one that fails in the
      evaluator, leaves another text under its name, whose own name that is not. */
  lemma ReturnsLost(sha: Sha, hash: Hash, kavm: Evaluator, faucet: string, dir: map<string, string>,
                    create: Txn, txns: seq<Txn>)
    requires Injective(sha)
    requires IsText(create.approval, RETURNS) && create.clear == [] && Sendable(create.fields)
    requires Submittable(txns) && !Carries(txns, RETURNS)
    ensures var first := Submit(Env(sha, hash, Echo(sha)), Start(faucet, dir), [create]).state;
      var second := Submit(Env(sha, hash, kavm), first, txns).state;
      var name := NameOf(sha, RETURNS);
      && Tracked(first.accounts, name)
      && name in first.dir && first.dir[name] == RETURNS
      && name in second.dir && second.dir[name] == NO_RETURNS
      && name != NameOf(sha, NO_RETURNS)
  {
    hide Injective, AllResolve, Carries, Construct, Discover, Rebuild, ReadText, RETURNS, NO_RETURNS, Sendable,
         Honest, IsText;
    var env := Env(sha, hash, Echo(sha));
    var start := Start(faucet, dir);
    assert Submittable([create]) by { AsciiText(create.approval, RETURNS); }
    assert Carries([create], RETURNS) by { CarriesOnly(create, RETURNS); }
    StartResolves(sha, faucet, dir);
    ProgramsAt(env, start, [], [create], RETURNS);
    EchoIsHonest(sha);
    SubmitResolves(env, start, [], [create]);
    var first := Submit(env, start, [create]).state;
    var accounts := [Account("creator", 0, Some([App(1, NameOf(sha, RETURNS), "")]))];
    RebuildIsOnePass(start.appCreators, SanitizeAccounts(accounts));
    assert first.accounts[0].apps.value[0].approval == NameOf(sha, RETURNS);
    assert Tracked(first.accounts, NameOf(sha, RETURNS));
    FileAfterSubmission(Env(sha, hash, kavm), first, [] + [[create]], txns, RETURNS);
    ReturnsRead();
    if NameOf(sha, RETURNS) == NameOf(sha, NO_RETURNS) { SameName(sha, RETURNS, NO_RETURNS); }
  }

  lemma AsciiText(source: seq<Byte>, text: string)
    requires IsText(source, text)
    ensures AsciiBytes(source)
  {
  }

  lemma CarriesOnly(t: Txn, text: string)
    requires IsText(t.approval, text)
    ensures Carries([t], text)
  {
    assert [t][0] == t;
  }

  // ----- state that is lost -----

  lemma SubmitDumped(env: Env, s: State, txns: seq<Txn>)
    requires var built := Construct(env, s.dir, Discover(s.accounts, txns), txns);
      built.Some? && env.kavm(built.value).Dump? && Distinct(SanitizeAccounts(env.kavm(built.value).accounts))
    ensures var r := Submit(env, s, txns);
      var reply := env.kavm(Construct(env, s.dir, Discover(s.accounts, txns), txns).value);
      && r.state.accounts == SanitizeAccounts(reply.accounts)
      && r.state.appCreators == IndexAccounts(s.appCreators, r.state.accounts)
      && (r.answer.NothingCommitted? <==> reply.committed == [])
  {
    hide Construct, Discover;
    var built := Construct(env, s.dir, Discover(s.accounts, txns), txns);
    RebuildIsOnePass(s.appCreators, SanitizeAccounts(env.kavm(built.value).accounts));
  }

  /** An evaluator whose dumps are empty. */
  function Silent(): Evaluator { (scenario: Scenario) => Dump([], []) }

  /** The third failure loses all accounts, the faucet with the whole supply among them. */
  lemma AccountsLost(env: Env, faucet: string, dir: map<string, string>, group: seq<Txn>)
    requires env.kavm == Silent() && Submittable(group)
    ensures Honest(env.kavm)
    ensures var start := Start(faucet, dir);
      var r := Submit(env, start, group);
      && Total(start.accounts) == 18_446_744_073_709_551_615
      && r.answer.NothingCommitted? && r.state.accounts == []
  {
    hide Construct, Discover, Submittable;
    var start := Start(faucet, dir);
    assert start.accounts[..0] == [];
    StartResolves(env.sha, faucet, dir);
    ScenarioPrograms(env, start, [], group);
    SubmitDumped(env, start, group);
  }

  predicate AnyApp(accounts: seq<Account>) {
    exists i :: 0 <= i < |accounts| && AppsOf(accounts[i]) != []
  }

  const OWNER := Account("C", 0, Some([App(7, "", "")]))

  /** An evaluator that creates an application, and later drops its creator. */
  function Forgetful(): Evaluator {
    (scenario: Scenario) => if AnyApp(scenario.accounts) then Dump([], [("1", "")]) else Dump([OWNER], [("0", "")])
  }

  lemma ForgetfulIsHonest()
    ensures Honest(Forgetful()) && Reports(Forgetful())
  {
  }

  lemma AppsDiscovered(accounts: seq<Account>, txns: seq<Txn>)
    ensures AnyApp(Discover(accounts, txns)) <==> AnyApp(accounts)
  {
    hide Discover, Total, Known, Mentioned;
    DiscoverKeeps(accounts, txns);
    var known := Discover(accounts, txns);
    assert forall i :: 0 <= i < |accounts| ==> known[i] == accounts[i];
  }

  /** One submission to such an evaluator. */
  lemma ForgetfulSubmit(env: Env, s: State, submissions: seq<seq<Txn>>, txns: seq<Txn>)
    requires env.kavm == Forgetful() && Submittable(txns)
    requires AllResolve(env.sha, s, submissions)
    ensures var t := Submit(env, s, txns).state;
      && t.accounts == (if AnyApp(s.accounts) then [] else [OWNER])
      && t.appCreators == IndexAccounts(s.appCreators, t.accounts)
      && AllResolve(env.sha, t, submissions + [txns])
  {
    hide Construct, Discover, Submittable, AllResolve, TxnsOk, RecordTxns, RecordAccounts;
    var known := Discover(s.accounts, txns);
    ScenarioPrograms(env, s, submissions, txns);
    var json := ConstructIs(env, s.dir, known, txns);
    var renamed := RenameAccounts(env.sha, s.dir, known);
    assert forall i :: 0 <= i < |known| ==> |AppsOf(renamed[i])| == |AppsOf(known[i])|;
    AppsDiscovered(s.accounts, txns);
    ForgetfulIsHonest();
    SubmitDumped(env, s, txns);
    SubmitResolves(env, s, submissions, txns);
  }

  lemma RunTwice(env: Env, s: State, first: seq<Txn>, second: seq<Txn>)
    ensures Run(env, s, [first, second]) == Submit(env, Submit(env, s, first).state, second).state
  {
    hide Submit;
    assert [first, second][..1] == [first] && [first][..0] == [];
    assert Run(env, s, []) == s;
    assert Run(env, s, [first]) == Submit(env, s, first).state;
  }

  lemma ForgetfulTwice(env: Env, faucet: string, dir: map<string, string>, first: seq<Txn>, second: seq<Txn>)
    requires env.kavm == Forgetful() && Submittable(first) && Submittable(second)
    ensures var s := Run(env, Start(faucet, dir), [first, second]);
      s.accounts == [] && s.appCreators == map[7 := "C"]
  {
    hide Run, Submit, Submittable, AllResolve;
    var start := Start(faucet, dir);
    RunTwice(env, start, first, second);
    StartResolves(env.sha, faucet, dir);
    ForgetfulSubmit(env, start, [], first);
    var s := Submit(env, start, first).state;
    assert !AnyApp(start.accounts);
    assert AnyApp([OWNER]) by { assert AppsOf([OWNER][0]) != []; }
    ForgetfulSubmit(env, s, [] + [first], second);
    assert [OWNER][..0] == [] && [App(7, "", "")][..0] == [];
    assert IndexAccounts(map[], [OWNER]) == map[7 := "C"];
  }

  /** An application is created, and its creator is missing from the next dump: the id stays indexed
      under an account that is not tracked. */
  lemma CreatorForgotten(env: Env, faucet: string, dir: map<string, string>, first: seq<Txn>, second: seq<Txn>)
    requires env.kavm == Forgetful() && Submittable(first) && Submittable(second)
    ensures Honest(env.kavm) && Reports(env.kavm)
    ensures ApplicationOf(Run(env, Start(faucet, dir), [first, second]), 7).CreatorMissing?
  {
    hide Run, Submittable, Honest, Reports;
    ForgetfulIsHonest();
    ForgetfulTwice(env, faucet, dir, first, second);
  }

  /** When the forgotten creator then sends a group that fails before it is evaluated, the client makes
      up an account for it, and the lookup runs into the missing list of applications. */
  lemma CreatorMadeUp(env: Env, faucet: string, dir: map<string, string>, first: seq<Txn>, second: seq<Txn>)
    requires env.kavm == Forgetful() && Submittable(first) && Submittable(second)
    ensures Honest(env.kavm) && Reports(env.kavm)
    ensures var third := [Txn("C", None, [], [], DESTROY)];
      ApplicationOf(Run(env, Start(faucet, dir), [first, second, third]), 7).NoAppList?
  {
    hide Construct, Submittable, Honest, Reports, Rebuild;
    ForgetfulIsHonest();
    var third := [Txn("C", None, [], [], DESTROY)];
    assert [first, second, third][..2] == [first, second];
    var s := Run(env, Start(faucet, dir), [first, second]);
    assert s.accounts == [] && s.appCreators == map[7 := "C"] by {
      ForgetfulTwice(env, faucet, dir, first, second);
    }
    AsciiIsNotEnough(env, s, "C", [], DESTROY);
    assert third[..0] == [];
    assert Discover([], third) == [Account("C", 0, None)];
  }

  // ----- compiled texts -----

  /** After its submission the name of a program holds the very text that was carried. */
  lemma CarriedTextIsFiled(env: Env, faucet: string, dir: map<string, string>, submissions: seq<seq<Txn>>,
                            txns: seq<Txn>, text: string)
    requires Injective(env.sha) && Honest(env.kavm)
    requires Submittable(txns) && Carries(txns, text)
    ensures var s := Submit(env, Run(env, Start(faucet, dir), submissions), txns).state;
      NameOf(env.sha, text) in s.dir && s.dir[NameOf(env.sha, text)] == text
  {
    hide Run, Discover, AllResolve, Construct, Rebuild, Honest, Injective, Submittable, Carries, Tracked, ReadText;
    NamesResolve(env, faucet, dir, submissions);
    ProgramsAt(env, Run(env, Start(faucet, dir), submissions), submissions, txns, text);
  }

  /** A program goes from `/teal/compile` through the caller's own base64 decoder and a transaction into
      the directory unchanged: after the submission its name holds the very text that was compiled. */
  lemma CompiledTextIsFiled(env: Env, faucet: string, dir: map<string, string>, submissions: seq<seq<Txn>>,
                            txns: seq<Txn>, i: nat, source: seq<Byte>)
    requires Injective(env.sha) && Honest(env.kavm)
    requires source != [] && i < |txns| && Submittable(txns)
    requires var compiled := B64DecodePy(B64EncodePadded(source));
      compiled.Some? && (txns[i].approval == compiled.value || txns[i].clear == compiled.value)
    ensures var s := Submit(env, Run(env, Start(faucet, dir), submissions), txns).state;
      var name := NameOf(env.sha, Chars(source));
      name in s.dir && s.dir[name] == Chars(source)
  {
    hide Run, Submit, Honest, Injective, Sendable, B64DecodePy, B64EncodePadded, AsciiBytes;
    PyRoundTrip(source);
    CarriedSource(txns, i);
    CarriedTextIsFiled(env, faucet, dir, submissions, txns, Chars(source));
  }

  ghost predicate Holds(sha: Sha, dir: map<string, string>, text: string) {
    var name := NameOf(sha, text);
    name in dir && (dir[name] == text || ('\r' in text && dir[name] == ReadText(text)))
  }

  lemma StillHolds(env: Env, s: State, submissions: seq<seq<Txn>>, txns: seq<Txn>, text: string)
    requires Injective(env.sha) && AllResolve(env.sha, s, submissions)
    requires Holds(env.sha, s.dir, text)
    ensures Holds(env.sha, Submit(env, s, txns).state.dir, text)
  {
    hide Injective, AllResolve, Submittable, Carries, Tracked, Construct, Discover, Rebuild, ReadText;
    ScenarioPrograms(env, s, submissions, txns);
    if Submittable(txns) {
      ProgramsAt(env, s, submissions, txns, text);
      ReadTextIs(text);
      ReadTextTwice(text);
    }
  }

  /** Over every run: every text carried by a submittable group, successful or not, is under its name
      in every later state; exactly as it was sent unless it has a carriage return. */
  lemma {:induction false} TextStaysFiled(env: Env, faucet: string, dir: map<string, string>,
                                          submissions: seq<seq<Txn>>, i: nat, text: string)
    requires Injective(env.sha) && Honest(env.kavm)
    requires i < |submissions| && Submittable(submissions[i]) && Carries(submissions[i], text)
    ensures var s := Run(env, Start(faucet, dir), submissions);
      && Holds(env.sha, s.dir, text)
      && ('\r' !in text ==> s.dir[NameOf(env.sha, text)] == text)
  {
    hide Honest, Injective, AllResolve, Submittable, Carries, Submit, ReadText, Start;
    var front, last := submissions[..|submissions| - 1], submissions[|submissions| - 1];
    if i < |front| {
      TextStaysFiled(env, faucet, dir, front, i, text);
      NamesResolve(env, faucet, dir, front);
      StillHolds(env, Run(env, Start(faucet, dir), front), front, last, text);
    } else {
      CarriedTextIsFiled(env, faucet, dir, front, last, text);
    }
  }
}
