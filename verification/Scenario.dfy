/** How a simulation scenario is built (scenario.py): every TEAL program in it, given as a file name
    or as base64, is replaced by the name of a file that is named after the hash of its text. */
module Scenario {
  import opened Common
  import opened Characters
  import opened Base
  import opened PyBase64
  import opened TxnByteFields
  import opened TxnJson

  /** `approval` and `clear` hold a program's file name or base64 source, or are empty. */
  datatype App = App(id: int, approval: string, clear: string)

  /** `apps` is None for an account made up by the client rather than reported by the evaluator. */
  datatype Account = Account(address: string, amount: nat, apps: Option<seq<App>>)

  /** A transaction's dictionary as JSON: its two programs (`apap` and `apsu`, empty when there are
      none), and its other entries. */
  datatype JsonTxn = JsonTxn(approval: string, clear: string, fields: seq<Field>)

  /** A stage of a scenario in JSON; `OtherStage` is one of another type, or one without its data. */
  datatype Stage = SetupNetwork(accounts: seq<Account>) | SubmitTransactions(txns: seq<JsonTxn>) | OtherStage

  datatype Scenario = Scenario(accounts: seq<Account>, txns: seq<JsonTxn>, programs: map<string, string>)

  datatype Program = Program(name: string, text: string)

  /** The hexadecimal SHA-512 digest of a text. */
  type Sha = string -> string

  // ----- program fields -----

  predicate IsFileName(field: string) {
    5 <= |field| && field[|field| - 5..] == ".teal"
  }

  function NameOf(sha: Sha, text: string): string {
    sha(text) + ".teal"
  }

  /** `read_text` has universal newlines: a carriage return, with or without a line feed after it, is
      read as a line feed. */
  function ReadText(s: string): string {
    if s == "" then ""
    else if s[0] != '\r' then [s[0]] + ReadText(s[1..])
    else ['\n'] + ReadText(if 1 < |s| && s[1] == '\n' then s[2..] else s[1..])
  }

  /** `_extract_teal_program`: reads the file, or decodes the source and names it after its hash. None
      is a missing file, text that is no base64, or a source that is not ASCII. */
  function Extract(sha: Sha, dir: map<string, string>, field: string): Option<Program> {
    if IsFileName(field) then
      if field in dir then Some(Program(field, ReadText(dir[field]))) else None
    else
      match B64DecodePy(field)
      case None => None
      case Some(source) =>
        if AsciiBytes(source) then Some(Program(NameOf(sha, Chars(source)), Chars(source))) else None
  }

  predicate FieldOk(sha: Sha, dir: map<string, string>, field: string) {
    field == "" || Extract(sha, dir, field).Some?
  }

  function Rename(sha: Sha, dir: map<string, string>, field: string): string
    requires FieldOk(sha, dir, field)
  {
    if field == "" then "" else Extract(sha, dir, field).value.name
  }

  function Record(sha: Sha, dir: map<string, string>, programs: map<string, string>, field: string): map<string, string>
    requires FieldOk(sha, dir, field)
  {
    if field == "" then programs else
      var p := Extract(sha, dir, field).value;
      programs[p.name := p.text]
  }

  function AppsOf(a: Account): seq<App> {
    if a.apps.Some? then a.apps.value else []
  }

  /** `sanitize_accounts` inserts an empty list where there is no list of applications. */
  function SanitizeAccounts(accounts: seq<Account>): seq<Account> {
    seq(|accounts|, i requires 0 <= i < |accounts| => accounts[i].(apps := Some(AppsOf(accounts[i]))))
  }

  // ----- what a scenario must be -----

  ghost predicate AppsOk(sha: Sha, dir: map<string, string>, apps: seq<App>) {
    forall i :: 0 <= i < |apps| ==> FieldOk(sha, dir, apps[i].approval) && FieldOk(sha, dir, apps[i].clear)
  }

  ghost predicate AccountsOk(sha: Sha, dir: map<string, string>, accounts: seq<Account>) {
    forall i :: 0 <= i < |accounts| ==> AppsOk(sha, dir, AppsOf(accounts[i]))
  }

  ghost predicate TxnsOk(sha: Sha, dir: map<string, string>, txns: seq<JsonTxn>) {
    forall i :: 0 <= i < |txns| ==> FieldOk(sha, dir, txns[i].approval) && FieldOk(sha, dir, txns[i].clear)
  }

  /** Programs recorded in the order they are visited: a later one of the same name wins. */
  ghost function RecordApps(sha: Sha, dir: map<string, string>, programs: map<string, string>,
                            apps: seq<App>): map<string, string>
    requires AppsOk(sha, dir, apps)
  {
    if apps == [] then programs else
      var last := apps[|apps| - 1];
      Record(sha, dir, Record(sha, dir, RecordApps(sha, dir, programs, apps[..|apps| - 1]), last.approval), last.clear)
  }

  ghost function RecordAccounts(sha: Sha, dir: map<string, string>, accounts: seq<Account>): map<string, string>
    requires AccountsOk(sha, dir, accounts)
  {
    if accounts == [] then map[] else
      RecordApps(sha, dir, RecordAccounts(sha, dir, accounts[..|accounts| - 1]), AppsOf(accounts[|accounts| - 1]))
  }

  ghost function RecordTxns(sha: Sha, dir: map<string, string>, programs: map<string, string>,
                            txns: seq<JsonTxn>): map<string, string>
    requires TxnsOk(sha, dir, txns)
  {
    if txns == [] then programs else
      var last := txns[|txns| - 1];
      Record(sha, dir, Record(sha, dir, RecordTxns(sha, dir, programs, txns[..|txns| - 1]), last.approval), last.clear)
  }

  ghost function RenameApps(sha: Sha, dir: map<string, string>, apps: seq<App>): seq<App>
    requires AppsOk(sha, dir, apps)
  {
    seq(|apps|, i requires 0 <= i < |apps| =>
      App(apps[i].id, Rename(sha, dir, apps[i].approval), Rename(sha, dir, apps[i].clear)))
  }

  ghost function RenameAccounts(sha: Sha, dir: map<string, string>, accounts: seq<Account>): seq<Account>
    requires AccountsOk(sha, dir, accounts)
  {
    seq(|accounts|, i requires 0 <= i < |accounts| =>
      Account(accounts[i].address, accounts[i].amount, Some(RenameApps(sha, dir, AppsOf(accounts[i])))))
  }

  ghost function RenameTxns(sha: Sha, dir: map<string, string>, txns: seq<JsonTxn>): seq<JsonTxn>
    requires TxnsOk(sha, dir, txns)
  {
    seq(|txns|, i requires 0 <= i < |txns| =>
      JsonTxn(Rename(sha, dir, txns[i].approval), Rename(sha, dir, txns[i].clear), txns[i].fields))
  }

  predicate DefaultsOk(txns: seq<JsonTxn>) {
    forall i :: 0 <= i < |txns| ==> Defaults(txns[i].fields).Some?
  }

  function DefaultTxns(txns: seq<JsonTxn>): seq<JsonTxn>
    requires DefaultsOk(txns)
  {
    seq(|txns|, i requires 0 <= i < |txns| => txns[i].(fields := Defaults(txns[i].fields).value))
  }

  /** The scenario, or None when a transaction lacks what it needs or a program cannot be extracted. */
  ghost function Build(sha: Sha, dir: map<string, string>, accounts: seq<Account>,
                       txns: seq<JsonTxn>): Option<Scenario> {
    if !AccountsOk(sha, dir, accounts) || !DefaultsOk(txns) then None else
      var complete := DefaultTxns(txns);
      if !TxnsOk(sha, dir, complete) then None else
        Some(Scenario(RenameAccounts(sha, dir, accounts), RenameTxns(sha, dir, complete),
                      RecordTxns(sha, dir, RecordAccounts(sha, dir, accounts), complete)))
  }

  /** Exactly the two stages must be there. */
  ghost function FromStages(sha: Sha, dir: map<string, string>, stages: seq<Stage>): Option<Scenario> {
    if |stages| == 2 && stages[0].SetupNetwork? && stages[1].SubmitTransactions? then
      Build(sha, dir, stages[0].accounts, stages[1].txns)
    else None
  }

  // ----- the code -----

  method RewritePrograms(sha: Sha, dir: map<string, string>, approval: string, clear: string,
                         programs: map<string, string>)
    returns (ok: bool, approval': string, clear': string, programs': map<string, string>)
    ensures ok <==> FieldOk(sha, dir, approval) && FieldOk(sha, dir, clear)
    ensures ok ==> approval' == Rename(sha, dir, approval) && clear' == Rename(sha, dir, clear)
    ensures ok ==> programs' == Record(sha, dir, Record(sha, dir, programs, approval), clear)
  {
    hide Extract;
    ok, approval', clear', programs' := true, approval, clear, programs;
    if approval != "" {
      var p := Extract(sha, dir, approval);
      if p.None? { return false, approval, clear, programs; }
      programs' := programs'[p.value.name := p.value.text];
      approval' := p.value.name;
    }
    if clear != "" {
      var p := Extract(sha, dir, clear);
      if p.None? { return false, approval, clear, programs; }
      programs' := programs'[p.value.name := p.value.text];
      clear' := p.value.name;
    }
  }

  lemma OneMoreApp(sha: Sha, dir: map<string, string>, programs: map<string, string>, apps: seq<App>, j: nat)
    requires j < |apps| && AppsOk(sha, dir, apps[..j])
    ensures AppsOk(sha, dir, apps) ==> FieldOk(sha, dir, apps[j].approval) && FieldOk(sha, dir, apps[j].clear)
    ensures FieldOk(sha, dir, apps[j].approval) && FieldOk(sha, dir, apps[j].clear) ==>
      var a := apps[j];
      && AppsOk(sha, dir, apps[..j + 1])
      && RenameApps(sha, dir, apps[..j + 1])
           == RenameApps(sha, dir, apps[..j]) + [App(a.id, Rename(sha, dir, a.approval), Rename(sha, dir, a.clear))]
      && RecordApps(sha, dir, programs, apps[..j + 1])
           == Record(sha, dir, Record(sha, dir, RecordApps(sha, dir, programs, apps[..j]), a.approval), a.clear)
  {
    hide FieldOk, Rename, Record;
    assert apps[..j + 1][..j] == apps[..j];
  }

  method RewriteApps(sha: Sha, dir: map<string, string>, before: seq<App>, programs: map<string, string>)
    returns (ok: bool, apps: seq<App>, programs': map<string, string>)
    ensures ok <==> AppsOk(sha, dir, before)
    ensures ok ==> apps == RenameApps(sha, dir, before)
    ensures ok ==> programs' == RecordApps(sha, dir, programs, before)
  {
    StartApps(sha, dir, programs);
    hide FieldOk, Record, Rename, AppsOk, RenameApps, RecordApps;
    ok, apps, programs' := true, before, programs;
    for j := 0 to |before|
      invariant |apps| == |before| && apps[j..] == before[j..]
      invariant AppsOk(sha, dir, before[..j]) && apps[..j] == RenameApps(sha, dir, before[..j])
      invariant programs' == RecordApps(sha, dir, programs, before[..j])
    {
      OneMoreApp(sha, dir, programs, before, j);
      var app := apps[j];
      var approval, clear;
      ok, approval, clear, programs' := RewritePrograms(sha, dir, app.approval, app.clear, programs');
      if !ok { return; }
      apps := apps[j := app.(approval := approval, clear := clear)];
      assert apps[..j + 1] == apps[..j] + [apps[j]];
    }
    assert before[..|before|] == before && apps[..|before|] == apps;
  }

  lemma StartApps(sha: Sha, dir: map<string, string>, programs: map<string, string>)
    ensures AppsOk(sha, dir, []) && RenameApps(sha, dir, []) == []
    ensures RecordApps(sha, dir, programs, []) == programs
  {
  }

  lemma OneMoreAccount(sha: Sha, dir: map<string, string>, accounts: seq<Account>, i: nat)
    requires i < |accounts| && AccountsOk(sha, dir, accounts[..i])
    ensures AccountsOk(sha, dir, accounts) ==> AppsOk(sha, dir, AppsOf(accounts[i]))
    ensures AppsOk(sha, dir, AppsOf(accounts[i])) ==>
      var a := accounts[i];
      && AccountsOk(sha, dir, accounts[..i + 1])
      && RenameAccounts(sha, dir, accounts[..i + 1])
           == RenameAccounts(sha, dir, accounts[..i])
               + [Account(a.address, a.amount, Some(RenameApps(sha, dir, AppsOf(a))))]
      && RecordAccounts(sha, dir, accounts[..i + 1])
           == RecordApps(sha, dir, RecordAccounts(sha, dir, accounts[..i]), AppsOf(a))
  {
    hide AppsOk, RenameApps, RecordApps, AppsOf;
    assert accounts[..i + 1][..i] == accounts[..i];
  }

  method RewriteAccounts(sha: Sha, dir: map<string, string>, before: seq<Account>)
    returns (ok: bool, accounts: seq<Account>, programs: map<string, string>)
    ensures ok <==> AccountsOk(sha, dir, before)
    ensures ok ==> accounts == RenameAccounts(sha, dir, before)
    ensures ok ==> programs == RecordAccounts(sha, dir, before)
  {
    StartAccounts(sha, dir);
    hide AppsOk, RenameApps, RecordApps, AccountsOk, RenameAccounts, RecordAccounts;
    ok, accounts, programs := true, before, map[];
    for i := 0 to |before|
      invariant |accounts| == |before| && accounts[i..] == before[i..]
      invariant AccountsOk(sha, dir, before[..i]) && accounts[..i] == RenameAccounts(sha, dir, before[..i])
      invariant programs == RecordAccounts(sha, dir, before[..i])
    {
      OneMoreAccount(sha, dir, before, i);
      var account := accounts[i];
      var apps;
      ok, apps, programs := RewriteApps(sha, dir, AppsOf(account), programs);
      if !ok { return; }
      accounts := accounts[i := account.(apps := Some(apps))];
      assert accounts[..i + 1] == accounts[..i] + [accounts[i]];
    }
    assert before[..|before|] == before && accounts[..|before|] == accounts;
  }

  lemma StartAccounts(sha: Sha, dir: map<string, string>)
    ensures AccountsOk(sha, dir, []) && RenameAccounts(sha, dir, []) == []
    ensures RecordAccounts(sha, dir, []) == map[]
  {
  }

  lemma OneMoreTxn(sha: Sha, dir: map<string, string>, programs: map<string, string>, txns: seq<JsonTxn>, j: nat)
    requires j < |txns| && TxnsOk(sha, dir, txns[..j])
    ensures TxnsOk(sha, dir, txns) ==> FieldOk(sha, dir, txns[j].approval) && FieldOk(sha, dir, txns[j].clear)
    ensures FieldOk(sha, dir, txns[j].approval) && FieldOk(sha, dir, txns[j].clear) ==>
      var t := txns[j];
      && TxnsOk(sha, dir, txns[..j + 1])
      && RenameTxns(sha, dir, txns[..j + 1]) == RenameTxns(sha, dir, txns[..j])
           + [JsonTxn(Rename(sha, dir, t.approval), Rename(sha, dir, t.clear), t.fields)]
      && RecordTxns(sha, dir, programs, txns[..j + 1])
           == Record(sha, dir, Record(sha, dir, RecordTxns(sha, dir, programs, txns[..j]), t.approval), t.clear)
  {
    hide FieldOk, Rename, Record;
    assert txns[..j + 1][..j] == txns[..j];
  }

  method RewriteTxns(sha: Sha, dir: map<string, string>, before: seq<JsonTxn>, programs: map<string, string>)
    returns (ok: bool, txns: seq<JsonTxn>, programs': map<string, string>)
    ensures ok <==> TxnsOk(sha, dir, before)
    ensures ok ==> txns == RenameTxns(sha, dir, before)
    ensures ok ==> programs' == RecordTxns(sha, dir, programs, before)
  {
    StartTxns(sha, dir, programs);
    hide FieldOk, Record, Rename, TxnsOk, RenameTxns, RecordTxns;
    ok, txns, programs' := true, before, programs;
    for j := 0 to |before|
      invariant |txns| == |before| && txns[j..] == before[j..]
      invariant TxnsOk(sha, dir, before[..j]) && txns[..j] == RenameTxns(sha, dir, before[..j])
      invariant programs' == RecordTxns(sha, dir, programs, before[..j])
    {
      OneMoreTxn(sha, dir, programs, before, j);
      var txn := txns[j];
      var approval, clear;
      ok, approval, clear, programs' := RewritePrograms(sha, dir, txn.approval, txn.clear, programs');
      if !ok { return; }
      txns := txns[j := txn.(approval := approval, clear := clear)];
      assert txns[..j + 1] == txns[..j] + [txns[j]];
    }
    assert before[..|before|] == before && txns[..|before|] == txns;
  }

  lemma StartTxns(sha: Sha, dir: map<string, string>, programs: map<string, string>)
    ensures TxnsOk(sha, dir, []) && RenameTxns(sha, dir, []) == []
    ensures RecordTxns(sha, dir, programs, []) == programs
  {
  }

  /** `sanitize_transactions`: the default values of every transaction. */
  method SanitizeTransactions(txns: seq<JsonTxn>) returns (ok: bool, result: seq<JsonTxn>)
    ensures ok <==> DefaultsOk(txns)
    ensures ok ==> result == DefaultTxns(txns)
  {
    hide Defaults;
    result := [];
    for i := 0 to |txns|
      invariant |result| == i
      invariant forall j :: 0 <= j < i ==>
        && Defaults(txns[j].fields).Some?
        && result[j] == txns[j].(fields := Defaults(txns[j].fields).value)
    {
      var fields := Defaults(txns[i].fields);
      if fields.None? { return false, []; }
      result := result + [txns[i].(fields := fields.value)];
    }
    ok := true;
  }

  method FromJson(sha: Sha, dir: map<string, string>, stages: seq<Stage>) returns (r: Option<Scenario>)
    ensures r == FromStages(sha, dir, stages)
    ensures r.Some? ==> |stages| == 2 && stages[0].SetupNetwork? && stages[1].SubmitTransactions?
  {
    hide AccountsOk, RenameAccounts, RecordAccounts, TxnsOk, RenameTxns, RecordTxns, DefaultsOk, DefaultTxns;
    if |stages| == 0 || !stages[0].SetupNetwork? { return None; }
    var ok, accounts, programs := RewriteAccounts(sha, dir, stages[0].accounts);
    if !ok { return None; }
    if |stages| == 1 || !stages[1].SubmitTransactions? { return None; }
    var txns;
    ok, txns := SanitizeTransactions(stages[1].txns);
    if !ok { return None; }
    ok, txns, programs := RewriteTxns(sha, dir, txns, programs);
    if !ok { return None; }
    if 2 < |stages| { return None; }
    r := Some(Scenario(accounts, txns, programs));
  }

  // ----- names and texts -----

  /** Encoded program text never looks like a file name: it has no `.`. */
  lemma EncodedIsNoFileName(source: seq<Byte>)
    ensures !IsFileName(B64EncodePadded(source))
  {
    hide B64EncodePadded;
    var s := B64EncodePadded(source);
    if IsFileName(s) {
      var i := |s| - 5;
      assert s[i] == s[i..][0] == '.';
      EncodedCharacters(source, i);
      NoDot();
    }
  }

  lemma NoDot()
    ensures '.' !in B64DIGITS
  {
    Base64Codes();
    assert forall k :: 0 <= k < 64 ==> Code64(k) != '.' as int;
  }

  /** The program of a transaction is extracted exactly when its source is ASCII, and then it is that
      source, named after its hash, whatever files there are. */
  lemma ExtractEncoded(sha: Sha, dir: map<string, string>, source: seq<Byte>)
    requires source != []
    ensures FieldOk(sha, dir, B64EncodePadded(source)) <==> AsciiBytes(source)
    ensures AsciiBytes(source) ==>
      Extract(sha, dir, B64EncodePadded(source)) == Some(Program(NameOf(sha, Chars(source)), Chars(source)))
  {
    hide B64EncodePadded, B64DecodePy;
    EncodedIsNoFileName(source);
    EncodedEmpty(source);
    PyRoundTrip(source);
  }

  /** Reading a file changes its text exactly when there is a carriage return in it, and what was read
      has none. */
  lemma {:induction false} ReadTextIs(s: string)
    ensures ReadText(s) == s <==> '\r' !in s
    ensures '\r' !in ReadText(s)
    ensures |ReadText(s)| <= |s|
    decreases |s|
  {
    if s != "" {
      if s[0] != '\r' {
        ReadTextIs(s[1..]);
        assert s == [s[0]] + s[1..];
        assert ReadText(s)[1..] == ReadText(s[1..]);
      } else {
        ReadTextIs(if 1 < |s| && s[1] == '\n' then s[2..] else s[1..]);
        assert s[0] in s;
      }
    }
  }

  lemma ReadTextTwice(s: string)
    ensures ReadText(ReadText(s)) == ReadText(s)
  {
  }

  /** A carriage return alone is read as a line feed, too. */
  lemma {:induction false} ReadTextReturn(line: string, rest: string)
    requires '\r' !in line && (rest == "" || rest[0] != '\n')
    ensures ReadText(line + "\r" + rest) == line + "\n" + ReadText(rest)
  {
    if line == "" {
      assert line + "\r" + rest == "\r" + rest;
      assert ("\r" + rest)[1..] == rest;
    } else {
      assert (line + "\r" + rest)[1..] == line[1..] + "\r" + rest;
      ReadTextReturn(line[1..], rest);
    }
  }

  // ----- what a program field becomes -----

  /** A field that ends in `.teal` is a file: its text is read, its name stays. */
  lemma FileIsRead(sha: Sha, dir: map<string, string>, name: string)
    ensures var field := name + ".teal";
      && (FieldOk(sha, dir, field) <==> field in dir)
      && (field in dir ==>
            Extract(sha, dir, field) == Some(Program(field, ReadText(dir[field]))) && Rename(sha, dir, field) == field)
  {
    hide ReadText;
    var field := name + ".teal";
    assert field[|field| - 5..] == ".teal";
  }

  /** The source of a transaction becomes the hash of its text followed by `.teal`; no source stays no
      source. */
  lemma SourceIsRenamed(sha: Sha, dir: map<string, string>, source: seq<Byte>)
    requires FieldOk(sha, dir, B64EncodePadded(source))
    ensures Rename(sha, dir, B64EncodePadded(source)) == if source == [] then "" else sha(Chars(source)) + ".teal"
  {
    hide B64EncodePadded, Extract;
    EncodedEmpty(source);
    if source != [] {
      ExtractEncoded(sha, dir, source);
    }
  }
}
