# KAVM: codec, addresses, K-Coin vault and client state

KAVM executes Algorand transactions with a K semantics. Around that semantics it has code of its own,
and this project models the parts with something hard to get right, and proves what they are for.

- **Base64 and base32** (`Bits`, `Int32`, `Base`, `BaseLaws`). The hook's loops keep an `int`
  accumulator that is never masked and overflows after a few characters. They are proved, on input of
  any length, against the unbounded regrouping of bits of RFC 4648. The two encoders (and the two
  decoders) are the same loop but for the alphabet and the width, and are one loop here. `int` is two's
  complement with wrap-around; a mask with `2^w - 1` is a remainder.
- **Addresses** (`Algorand`). 290 bits carry 288; two are dropped. SHA-512/256 is any function to 32
  bytes.
- **The K-Coin vault** (`Ledger`, `KCoinVault`, `KCoinSolvency`, `KCoinPayable`). The contract as a state machine over
  a ledger with atomic groups: any mix of payments, transfers, asset creations and calls, sent by
  anyone except the vault. The transaction argument of a call is the transaction before it. The
  invariant ranges over all assets that repeated `init_asset` calls created, because `burn`, although
  documented for K Coins, never names the asset it accepts.
- **The client** (`PyBase64`, `TxnJson`, `Scenario`, `Client`, `ClientLaws`). The tracked accounts, the
  index from applications to creators and the directory of programs named by hash, over every run of
  submissions. A transaction is its whole dictionary: how it becomes text, JSON and a completed
  transaction is modelled, with every way to fail. The evaluator is any function from scenarios to a
  dump or a failure; what is assumed of it is the predicate `ClientLaws.Honest`. The hash is any
  function, injective where a lemma says so.

  Five things one would expect of this code are not so. Each has its exact condition and an input that
  the model reaches from the start:
  - a filed program is read back with universal newlines and written again, so a later submission
    turns its carriage returns into line feeds under the old name (`ReturnsLost`, `FileAfterRun`);
  - a group can fail before it is evaluated though its programs are fine: an asset configuration
    without parameters, with neither manager nor clawback address, or with its manager in bytes, which
    `sanitize_byte_fields` leaves and JSON refuses (`AsciiIsNotEnough`, `ScenarioPrograms`);
  - one of the three failures, a dump without transactions, comes after the state was replaced
    (condition `EmptyCommitReplaces`, input `AccountsLost`);
  - when the indexed creator is not a tracked account, the lookup's own error message fails with
    another exception than the one it means to raise (`CreatorMissing`; condition `LookupErrors`, input
    `CreatorForgotten`);
  - when that account is tracked but was made up by the client, its list of applications is null, and
    filtering it fails with an exception that nobody catches (`NoAppList`; condition `LookupErrors`,
    input `CreatorMadeUp`).
- **Expression translation** (`PyTeal`, `PythonText`), **configuration splitting** (`SplitConfig`),
  **application state** (`TealKeyValue`, `Decimal`) and **transaction byte fields** (`TxnByteFields`).
  Each has a law of the form "meaning is kept" or "this undoes that", with its exact condition.

Code that updates things in place is a method or a class here, and each method is tied to a function
about which the laws are proved. Python dictionaries are sequences of entries in insertion order, or
maps where the order cannot be observed. Python exceptions are `None`, `Panic` or `ok == false`.
Python's `base64`, `json` and `pathlib` modules and the SDK's address functions are not part of the
repository; they are modelled from their documented behaviour in `PyBase64`, `TxnJson`, `Scenario` and
`TxnByteFields`. What dictionary the SDK makes of a transaction is not assumed: it is any dictionary.

## Model

| member | source | states |
|---|---|---|
| `Int32.TracksPush` | hooks/base.cpp:13 | shifting in a byte or digit keeps the accumulator congruent to the number spelled by the whole stream so far, modulo 2^32 |
| `Int32.TracksRead` | hooks/base.cpp:16 | the bits read from the overflowed accumulator are the right group of the unbounded stream |
| `Int32.TracksFlush` | hooks/base.cpp:21 | the flush reads the leftover bits followed by zeros |
| `Bits.PackIs` | hooks/base.cpp:12-19 | a bit string has only one reading as w-bit numbers and fewer than w bits of rest: the regrouping is well defined |
| `Bits.PackFilled` | hooks/base.cpp:20-21 | after filling up with zeros no bit is lost or left |
| `Base.Base64Codes` | hooks/base.cpp:4 | the base64 alphabet is table 1 of RFC 4648 |
| `Base.Base32Codes` | hooks/base.cpp:60 | the base32 alphabet is table 3 of RFC 4648 |
| `Base.DigitTable` | hooks/base.cpp:27-32 | the table gives every digit its value and everything else -1 |
| `Base.EncodeLoop` | hooks/base.cpp:8-23 | for every input the loop with the wrapping accumulator emits exactly the digits of the unbounded regrouping |
| `Base.DecodeLoop` | hooks/base.cpp:38-53 | it emits exactly the whole bytes of the digits before the first foreign character |
| `Base.B64Encode` | hooks/base.cpp:6-25 | base64, with `=` up to a multiple of four when padded |
| `Base.B64Decode` | hooks/base.cpp:35-54 | the whole bytes of the longest base64 prefix |
| `Base.B32Encode` | hooks/base.cpp:62-79 | base32, unpadded |
| `Base.B32Decode` | hooks/base.cpp:89-108 | the whole bytes of the longest base32 prefix |
| `Base.UsesB32Alphabet` | hooks/base.cpp:110-116 | true exactly when all characters are base32 digits |
| `BaseLaws.DecodeEncode` | hooks/base.cpp:35-54 | decoding an encoding followed by anything that starts with a foreign character returns the input |
| `BaseLaws.B64RoundTrip` | hooks/base.cpp:6-54 | decode after encode is the identity, padded or not |
| `BaseLaws.B32RoundTrip` | hooks/base.cpp:62-108 | decode after encode is the identity |
| `BaseLaws.EncodedLengths` | hooks/base.cpp:6-25 | lengths ceil(8n/6), 4 ceil(n/3) padded, ceil(8n/5) |
| `BaseLaws.EncodeConcat` | hooks/base.cpp:12-21 | encoding distributes over concatenation after a part that fills its last digit |
| `BaseLaws.EncodeWholeGroups` | hooks/base.cpp:62-79 | in particular after whole groups of 3 bytes (base64, padded too) and of 5 bytes (base32) |
| `BaseLaws.LeftoverLength` | hooks/base.cpp:43-52 | how many bits decoding drops, from the length alone |
| `BaseLaws.DecodeKernel` | hooks/base.cpp:97-106 | two digit strings decode alike if and only if they agree on the bits that fill whole bytes |
| `BaseLaws.CanonicalSpelling` | hooks/base.cpp:62-108 | encode(decode(s)) == s if and only if fewer bits are dropped than a digit carries and they are zero (RFC 4648, section 3.5) |
| `BaseLaws.EncodeIsNumber` | hooks/base.cpp:8-23 | the text is the bytes, read as one number in base 256 and shifted to fill the last digit, written in base 2^width digit by digit |
| `BaseLaws.DecodeIsNumber` | hooks/base.cpp:38-53 | the bytes are the digits, read as one number, without the bits that fill no byte, written in base 256 |
| `BaseLaws.StopsAtForeign` | hooks/base.cpp:43-46 | the first foreign character and all after it is ignored |
| `Algorand.Checksummed` | hooks/algorand.cpp:32-38 | the key followed by bytes 28 to 31 of its hash |
| `Algorand.IsValidChecksummed` | hooks/algorand.cpp:55-59 | true exactly for 36 bytes whose last four are the checksum of the others |
| `Algorand.LastFourBytes` | hooks/algorand.cpp:32-38 | the checksum is bytes 28 to 31 of the hash, and 36 bytes are accepted exactly when those follow the key |
| `Algorand.IsValid` | hooks/algorand.cpp:49-53 | true exactly for 58 base32 digits that carry a key and its checksum |
| `Algorand.Address.FromString` | hooks/algorand.cpp:21-30 | sets both fields; the size assertions hold |
| `Algorand.Address.FromKey` | hooks/algorand.cpp:40-47 | sets both fields for any 32-byte key; the size assertions hold |
| `Algorand.Address.constructor` | hooks/algorand.cpp:6-8 | the zero address holds 32 zero bytes |
| `Algorand.ZeroAddress` | hooks/algorand.cpp:6-19 | its literal is base32 and decodes to a key of zeros |
| `Algorand.AddressRoundTrip` | hooks/algorand.cpp:32-59 | every 32-byte key has a valid address of 58 characters that decodes to it |
| `Algorand.ValidIsConstructible` | hooks/algorand.cpp:21-30 | what `is_valid` accepts meets the demands of the string constructor |
| `Algorand.SameDecoding` | hooks/algorand.cpp:49-53 | 58-digit strings decode alike if and only if they agree on 57 characters and the top three bits of the last |
| `Algorand.SameKey` | hooks/algorand.cpp:40-59 | the same for the keys of accepted strings |
| `Algorand.CanonicalAddress` | hooks/algorand.cpp:42-43 | a 58-digit string is canonical if and only if its two dropped bits are zero |
| `Algorand.FourSpellings` | hooks/algorand.cpp:40-59 | a key has exactly four accepted spellings, and encoding returns the canonical one |
| `Ledger.MoveKeeps` | lib/include/kframework/avm/avm-execution.md:344-388 | moving an amount keeps the sum and every other entry, also from an account to itself |
| `Ledger.PayKeeps` | lib/include/kframework/avm/avm-execution.md:455-504 | a payment conserves the Algos and touches two accounts |
| `Ledger.TransferKeeps` | lib/include/kframework/avm/avm-execution.md:679-800 | a transfer or opt-in conserves every asset and touches the sender only |
| `Ledger.CreateAssetKeeps` | lib/include/kframework/avm/avm-execution.md:520-575 | a created asset is new and fully held by its creator; every other asset, balance and account stays |
| `KCoinVault.Network.CallInitAsset` | kavm/src/tests/algod_integration/contracts/kcoin_vault/kcoin_vault_pyteal.py:50-79 | creator only; creates the asset, then sets both globals |
| `KCoinVault.Network.CallMint` | kavm/src/tests/algod_integration/contracts/kcoin_vault/kcoin_vault_pyteal.py:99-126 | checks asset and receiver, sends floor(amount / rate) coins, returns the recomputed amount |
| `KCoinVault.Network.CallBurn` | kavm/src/tests/algod_integration/contracts/kcoin_vault/kcoin_vault_pyteal.py:134-158 | checks the receiver, pays amount * rate or panics on overflow |
| `KCoinVault.Network.SubmitGroup` | lib/include/kframework/avm/avm-execution.md:60-81 | groups are atomic, with minimum balances checked at the end |
| `KCoinSolvency.ExecKeeps` | kavm/src/tests/algod_integration/contracts/kcoin_vault/kcoin_vault_pyteal.py:49-158 | every transaction keeps the invariant, with credit for a payment or transfer that a call may use next |
| `KCoinSolvency.ExecConserves` | kavm/src/tests/algod_integration/contracts/kcoin_vault/kcoin_vault_pyteal.py:49-158 | every transaction conserves Algos, totals and untouched accounts |
| `KCoinSolvency.SubmitKeeps` | lib/include/kframework/avm/avm-execution.md:60-81 | every group keeps the invariant, and everyone who holds an asset at their minimum balance |
| `KCoinSolvency.RunSolvent` | kavm/src/tests/algod_integration/contracts/kcoin_vault/kcoin_vault_pyteal.py:49-158 | over every run: vault balance >= first funding + rate * units of all its assets held by others; conservation; the vault holds only its own assets |
| `KCoinSolvency.BurnPayable` | kavm/src/tests/algod_integration/contracts/kcoin_vault/kcoin_vault_pyteal.py:88-158 | a holder's burn goes through if and only if the payout leaves the vault its minimum balance; no overflow |
| `KCoinSolvency.VaultMinimum` | lib/include/kframework/avm/avm-execution.md:520-575 | after every run the vault has created one asset for each `init_asset` carried out, and its minimum balance is the starting one plus one unit for each |
| `KCoinSolvency.EveryCoinBurns` | kavm/src/tests/algod_integration/contracts/kcoin_vault/kcoin_vault_pyteal.py:134-158 | after every run, every holder can burn any amount held when the first funding covers the starting minimum balance and one more unit for every `init_asset` carried out; with one, that is the vault's minimum |
| `KCoinSolvency.MintMoves` | kavm/src/tests/algod_integration/contracts/kcoin_vault/kcoin_vault_pyteal.py:109-126 | the returned amount is the amount moved; all other holdings stay |
| `KCoinSolvency.MintThenBurn` | kavm/src/tests/algod_integration/contracts/kcoin_vault/test_mint_burn.py:18-22 | minting and burning restores the ledger up to amount % rate kept by the vault |
| `KCoinSolvency.SplitPayments` | kavm/src/tests/algod_integration/contracts/kcoin_vault/kcoin_vault_pyteal.py:82-85 | n separate roundings give at most floor(total / rate) and at least n - 1 less |
| `KCoinSolvency.MintsAddUp` | kavm/src/tests/algod_integration/contracts/kcoin_vault/kcoin_vault_pyteal.py:109-126 | several mints move exactly the sum of the rounded payments |
| `KCoinPayable.PaymentPayable` | lib/include/kframework/avm/avm-execution.md:455-504 | a payment goes through if and only if both accounts exist and end at their minimum balances; exactly the two balances change |
| `KCoinPayable.SelfPayment` | lib/include/kframework/avm/avm-execution.md:455-504 | a payment to oneself needs the amount and changes nothing |
| `KCoinPayable.TransferPayable` | lib/include/kframework/avm/avm-execution.md:679-800 | a transfer goes through if and only if both are opted in, the sender has the units and is at the minimum balance; exactly the two holdings change |
| `KCoinPayable.OptInPayable` | lib/include/kframework/avm/avm-execution.md:679-800 | a transfer to oneself opts in if and only if it is of nothing and 100000 microalgos of minimum balance can be borne |
| `KCoinPayable.CreatePayable` | lib/include/kframework/avm/avm-execution.md:520-575 | the same condition for the creation of an asset, and the whole new ledger |
| `KCoinPayable.InitPayable` | kavm/src/tests/algod_integration/contracts/kcoin_vault/kcoin_vault_pyteal.py:50-79 | `init_asset` goes through if and only if the creator calls and the vault can bear the minimum balance; a million units in the vault, rate 2, the new id returned |
| `KCoinPayable.TouchedIs` | lib/include/kframework/avm/avm-execution.md:129-172 | whose minimum balances are checked after a group |
| `KCoinPayable.MintPayable` | kavm/src/tests/algod_integration/contracts/kcoin_vault/kcoin_vault_pyteal.py:99-126 | a mint goes through if and only if an asset is initialised, the caller has opted in, the payer can pay and the vault has the coins |
| `KCoinPayable.MintPayableAfterRun` | kavm/src/tests/algod_integration/contracts/kcoin_vault/kcoin_vault_pyteal.py:99-126 | the same in every state that a run reaches |
| `KCoinPayable.BurnPayableBy` | kavm/src/tests/algod_integration/contracts/kcoin_vault/kcoin_vault_pyteal.py:134-158 | a burn called by someone else than the sender of the coins: its condition, and who is paid |
| `KCoinPayable.CallsNeed` | kavm/src/tests/algod_integration/contracts/kcoin_vault/kcoin_vault_pyteal.py:82-158 | the transaction a call must follow, and its two arithmetic panics |
| `PyBase64.PyRoundTrip` | kavm/src/kavm/adaptors/algod_transaction.py:104-128 | Python's decoder undoes its encoder and that of the hook |
| `PyBase64.LenientDecoding` | kavm/src/kavm/scenario.py:190 | foreign characters are skipped; unpadded digits decode as in the hook when they come in fours, and fail otherwise |
| `PyBase64.PaddingEnds` | kavm/src/kavm/scenario.py:190 | complete padding ends the text, incomplete padding fails |
| `Scenario.RewritePrograms` | kavm/src/kavm/scenario.py:192-200 | both program fields are replaced by file names, or the scenario is refused |
| `Scenario.RewriteAccounts` | kavm/src/kavm/scenario.py:222-234 | so are those of every application of every account, in order |
| `Scenario.RewriteTxns` | kavm/src/kavm/scenario.py:242-251 | and those of every transaction |
| `Scenario.SanitizeTransactions` | kavm/src/kavm/scenario.py:72-156 | every transaction gets its default values, or the scenario is refused |
| `TxnJson.DefaultsIff` | kavm/src/kavm/scenario.py:76-149 | inserting them fails if and only if the type is missing, an asset configuration lacks its parameters or both manager and clawback address, or an application call's global schema takes no entry |
| `TxnJson.DefaultsAre` | kavm/src/kavm/scenario.py:76-149 | entries that are there stay, and a missing one gets the default of its header or its type |
| `TxnJson.DefaultValues` | kavm/src/kavm/scenario.py:77-92 | the default values of the header, written out |
| `TxnJson.TypeDefaultValues` | kavm/src/kavm/scenario.py:93-148 | the default values of each type, written out |
| `TxnJson.CompletionAndSchema` | kavm/src/kavm/scenario.py:98-115 | a null completion becomes 0, and a global schema gets the counts that it lacks |
| `TxnJson.ContainsIs` | kavm/src/kavm/scenario.py:112-136 | what `in` means for a text, a list and a dictionary |
| `TxnJson.ManagerIs` | kavm/src/kavm/scenario.py:132-137 | an asset without a manager is managed by its clawback address, without a metadata hash or a freeze it gets the default; all other parameters stay |
| `TxnJson.SendableIff` | kavm/src/kavm/algod.py:312-326 | a dictionary becomes complete JSON if and only if, before the call, its bytes are where they are turned into text and it is complete in that sense |
| `TxnJson.JsonHasNoBytes` | kavm/src/kavm/algod.py:310-326 | a value is JSON if and only if there are no bytes anywhere inside it |
| `Scenario.FromJson` | kavm/src/kavm/scenario.py:187-256 | builds the scenario from exactly two right stages, or fails exactly when a transaction lacks what it needs or a program field cannot be extracted |
| `Scenario.ReadTextIs` | kavm/src/kavm/scenario.py:195 | reading a file returns its text if and only if there is no carriage return in it; what was read has none |
| `Scenario.EncodedIsNoFileName` | kavm/src/kavm/scenario.py:193 | base64 text is never taken for a file name |
| `Scenario.ExtractEncoded` | kavm/src/kavm/scenario.py:197-200 | an encoded program is extracted if and only if it is ASCII, as its own text under the name of its hash |
| `Scenario.FileIsRead` | kavm/src/kavm/scenario.py:193-196 | a field that ends in `.teal` is a file that must exist; its text is read and its name stays |
| `Scenario.SourceIsRenamed` | kavm/src/kavm/scenario.py:243-251 | an encoded source becomes the hash of its text with `.teal`, no source stays none |
| `Scenario.ReadTextReturn` | kavm/src/kavm/scenario.py:195 | a carriage return alone is read as a line feed |
| `Client.KAVMClient.constructor` | kavm/src/kavm/algod.py:76-84 | starts with the faucet account only |
| `Client.KAVMClient.CompileTeal` | kavm/src/kavm/algod.py:230-233 | returns the source as base64 |
| `Client.KAVMClient.DiscoverAddresses` | kavm/src/kavm/algod.py:260-266 | adds unknown senders and receivers in the order they are met |
| `Client.KAVMClient.IndexTracked` | kavm/src/kavm/algod.py:299-301 | one pass over all tracked accounts and their applications |
| `Client.KAVMClient.ReplaceAccounts` | kavm/src/kavm/algod.py:294-301 | the nested loops over accounts and applications |
| `Client.KAVMClient.ConstructScenario` | kavm/src/kavm/algod.py:307-329 | the group as JSON, then as a scenario; any of it may fail |
| `Client.KAVMClient.EvalTransactions` | kavm/src/kavm/algod.py:245-305 | one submission, with its three ways to fail |
| `Client.KAVMClient.AccountInfo` | kavm/src/kavm/algod.py:151-160 | the tracked account, or one with balance 0 |
| `Client.KAVMClient.ApplicationInfo` | kavm/src/kavm/algod.py:164-176 | the lookup through the index, with its four errors |
| `ClientLaws.DiscoverKeeps` | kavm/src/kavm/algod.py:260-266 | discovery adds only empty accounts that the group mentions, and leaves none unknown |
| `ClientLaws.DiscoverInOrder` | kavm/src/kavm/algod.py:260-266 | discovery goes through the group in order |
| `ClientLaws.DiscoverOne` | kavm/src/kavm/algod.py:260-266 | for one transaction the sender is added before the receiver, each at most once and with balance 0 |
| `ClientLaws.SanitizedAccounts` | kavm/src/kavm/scenario.py:31-50 | a record keeps its address, amount and applications, and a missing list becomes empty |
| `ClientLaws.DumpTracked` | kavm/src/kavm/algod.py:293-305 | after a dump the tracked accounts have exactly the dumped addresses, amounts and applications; the answer is the first dumped id |
| `ClientLaws.CommitAt` | kavm/src/kavm/algod.py:303-304 | each id has what was dumped last for it, every other id keeps its own |
| `ClientLaws.DumpCommitted` | kavm/src/kavm/algod.py:293-305 | so a dump commits its transactions, and the directory has the scenario's programs and otherwise what it had |
| `ClientLaws.FailureKeeps` | kavm/src/kavm/algod.py:268-290 | a submission whose scenario cannot be built, or that the evaluator fails, keeps index, committed transactions, accounts and total balance |
| `ClientLaws.EmptyCommitReplaces` | kavm/src/kavm/algod.py:294-305 | the third failure replaces the accounts by the dumped ones; it happens if and only if the dump has no transactions |
| `ClientLaws.AccountsLost` | kavm/src/kavm/algod.py:294-305 | an input: a failed first submission after which no account is tracked, the faucet included |
| `ClientLaws.GroupFailureKeeps` | kavm/src/kavm/algod.py:257-305 | so no failed submission of a non-empty group changes the state when dumps for such groups have a transaction |
| `ClientLaws.ScenarioListsGroup` | kavm/src/kavm/algod.py:268-313 | every scenario lists all senders and receivers of the group |
| `ClientLaws.ScenarioIs` | kavm/src/kavm/scenario.py:222-251 | a scenario lists all accounts with their amounts, applications and program names; each transaction has the file names of its own two programs and its other entries completed; every program named is in it |
| `ClientLaws.RebuildIsOnePass` | kavm/src/kavm/algod.py:294-301 | with distinct addresses, indexing inside the account loop equals one final pass |
| `ClientLaws.PutInPlace` | kavm/src/kavm/algod.py:297 | a replaced record keeps its place in the dictionary |
| `ClientLaws.NestedIsOnePass` | kavm/src/kavm/algod.py:294-301 | for any dump and any index, it equals one final pass if and only if every listed application is also listed by a record that no later one replaces, or was already indexed under the owner that the nested pass leaves it with; from an empty index the second case cannot arise |
| `ClientLaws.RepeatedAddressDiffers` | kavm/src/kavm/algod.py:294-301 | an input where it does not: a creator dumped again without its application |
| `ClientLaws.RunOkay` | kavm/src/kavm/algod.py:294-301 | over every run the index names the creator of every existing application |
| `ClientLaws.LookupIsSearch` | kavm/src/kavm/algod.py:164-176 | a lookup succeeds if and only if a linear search does, for stale ids too, and returns that application |
| `ClientLaws.LookupErrors` | kavm/src/kavm/algod.py:164-176 | over every run, the exact condition of each of the four ways in which a lookup fails |
| `ClientLaws.CreatorForgotten` | kavm/src/kavm/algod.py:170-176 | an input: two submissions after which an indexed creator is not tracked |
| `ClientLaws.CreatorMadeUp` | kavm/src/kavm/algod.py:171 | an input: three submissions after which the creator has no list of applications |
| `ClientLaws.ScenarioPrograms` | kavm/src/kavm/scenario.py:224-251 | a scenario can be built if and only if the group's programs are ASCII and its dictionaries sendable, and files every program under the hash of its text |
| `ClientLaws.AsciiIsNotEnough` | kavm/src/kavm/scenario.py:129-137 | inputs without any program that fail before evaluation, in every state |
| `ClientLaws.NamesResolve` | kavm/src/kavm/algod.py:307-328 | over every run every tracked program name is that of a text that was sent, and its file holds that text, or what is read back of it if it has a carriage return; exactly the groups that are not submittable fail before evaluation |
| `ClientLaws.NamesResolveExactly` | kavm/src/kavm/algod.py:307-328 | when no source has a byte 13, the file holds exactly a text that was sent |
| `ClientLaws.FileAfterSubmission` | kavm/src/kavm/kavm.py:109-110 | after a submittable group the file of a tracked program holds the sent text if and only if it has no carriage return or the group carries it again, whatever the evaluator answers |
| `ClientLaws.FileAfterRun` | kavm/src/kavm/kavm.py:109-110 | the same after any run |
| `ClientLaws.ReturnsLost` | kavm/src/kavm/scenario.py:195-199 | an input: two submissions after which a file holds a text that is not its name's |
| `ClientLaws.CompiledTextIsFiled` | kavm/src/kavm/algod.py:230-233 | a source that went through `/teal/compile`, the caller's base64 decoder and a transaction is under its name after the submission, unchanged |
| `ClientLaws.CarriedTextIsFiled` | kavm/src/kavm/kavm.py:109-111 | so is any text that a submittable group carries |
| `ClientLaws.TextStaysFiled` | kavm/src/kavm/kavm.py:109-111 | over every run, every text of an earlier submittable group is still under its name, exactly as sent unless it has a carriage return |
| `PyTeal.TranslatesSupported` | kavm/src/kavm/prover.py:88-110 | translation succeeds if and only if every node is a supported operator of two operands |
| `PyTeal.SameMeaning` | kavm/src/kavm/prover.py:61-110 | uint64 evaluation succeeds on a well-sorted expression if and only if every K subterm has a value in range; the values agree |
| `PyTeal.LeavesTranslated` | kavm/src/kavm/prover.py:89-92 | leaves are translated in order, a symbolic one never as its literal 0 |
| `PyTeal.OperatorNames` | kavm/src/kavm/prover.py:61-72 | the K operator of each PyTeal operator, with its operands in order |
| `Characters.UpperIs` | kavm/src/kavm/prover.py:90 | upper case changes exactly the lower-case letters |
| `PyTeal.MatchingValuation` | kavm/src/kavm/prover.py:90 | every valuation carries over if and only if no two names collide in upper case |
| `PythonText.PythonSrcPrints` | kavm/src/kavm/prover.py:113-124 | the printer prints the expression's tree |
| `PythonText.ReadBack` | kavm/src/kavm/prover.py:74-85 | Python reads the text back as the same tree if and only if operands are grouped from the left and comparisons are at the root |
| `PythonText.PythonSrcReadBack` | kavm/src/kavm/prover.py:113-124 | the same for every supported expression over identifiers |
| `PythonText.OperatorTexts` | kavm/src/kavm/prover.py:74-85 | how each operator is printed |
| `PythonText.PythonPrecedence` | kavm/src/kavm/prover.py:74-85 | how Python groups two operators, for every pair but two comparisons |
| `Decimal.LastDigit` | kavm/src/kavm/prover.py:118 | numbers are printed in decimal |
| `SplitConfig.CarefullySplit` | kavm/src/kavm/pyk_utils.py:125-148 | the symbolic configuration and the dictionary, top down |
| `SplitConfig.CarefulSplitRestores` | kavm/src/kavm/pyk_utils.py:125-148 | substituting back restores the configuration if and only if places of the same name had the same content |
| `SplitConfig.SkeletonCellsCut` | kavm/src/kavm/pyk_utils.py:137-145 | a one-argument cell left uncut is an ignored cell around a cell |
| `SplitConfig.CutOrKept` | kavm/src/kavm/pyk_utils.py:137-145 | exactly which cells are cut: those of one argument, unless an ignored cell holds a cell; that one stays and its argument is split |
| `SplitConfig.MangleIs` | kavm/src/kavm/pyk_utils.py:110-111 | how a cell's name becomes a variable's |
| `SplitConfig.CellVarExample` | kavm/src/kavm/pyk_utils.py:110-111 | an example of it |
| `SplitConfig.SplitDirectSubcells` | kavm/src/kavm/pyk_utils.py:102-121 | the same one layer deep; fails exactly on a subcell without arguments |
| `SplitConfig.DirectCuts` | kavm/src/kavm/pyk_utils.py:113-120 | every immediate subcell is cut and every other argument stays |
| `SplitConfig.DirectSplitRestores` | kavm/src/kavm/pyk_utils.py:102-121 | undone by substitution if and only if, also, every direct subcell has one argument |
| `TealKeyValue.DictIsList` | kavm/src/kavm/adaptors/teal_key_value.py:38-53 | filling a dictionary keeps a list if and only if its keys are distinct |
| `TealKeyValue.PutAt` | kavm/src/kavm/adaptors/teal_key_value.py:43 | a repeated key keeps its place and takes the later value |
| `TealKeyValue.EntriesAre` | kavm/src/kavm/adaptors/teal_key_value.py:38-53 | exactly the items of the type are taken, in order |
| `TealKeyValue.ListStateToDictBytesBytes` | kavm/src/kavm/adaptors/teal_key_value.py:38-44 | the dictionary of the byte-string items |
| `TealKeyValue.ListStateToDictBytesInts` | kavm/src/kavm/adaptors/teal_key_value.py:47-53 | the dictionary of the number items |
| `TealKeyValue.ParseByLeaves` | kavm/src/kavm/adaptors/teal_key_value.py:64-88 | the parsed list depends only on the items and their order |
| `TealKeyValue.AnyNesting` | kavm/src/kavm/adaptors/teal_key_value.py:82-85 | so maps that differ in association parse alike |
| `TealKeyValue.OthersSkipped` | kavm/src/kavm/adaptors/teal_key_value.py:80-88 | items of other sorts and other terms are skipped |
| `TealKeyValue.MalformedFails` | kavm/src/kavm/adaptors/teal_key_value.py:64-85 | where the parser fails |
| `Decimal.ReadLastDigit` | kavm/src/kavm/adaptors/teal_key_value.py:78 | numbers are read in decimal |
| `TealKeyValue.MapTerms` | kavm/src/kavm/pyk_utils.py:76-99 | the terms of empty, single and longer maps |
| `TealKeyValue.ParseMapBytes` | kavm/src/kavm/pyk_utils.py:76-87 | parsing a built byte-string map returns the dictionary |
| `TealKeyValue.ParseMapInts` | kavm/src/kavm/pyk_utils.py:90-99 | parsing a built number map returns the dictionary |
| `TealKeyValue.ThroughIsPartition` | kavm/src/kavm/adaptors/algod_application.py:36-38 | state comes back as its stable partition by type if and only if no key is repeated within a type |
| `TxnByteFields.TxnDict.SanitizeByteFields` | kavm/src/kavm/adaptors/algod_transaction.py:92-108 | the conversion to text in place, field by field |
| `TxnByteFields.TxnDict.DesanitizeByteFields` | kavm/src/kavm/adaptors/algod_transaction.py:110-129 | the conversion to bytes in place, field by field |
| `TxnByteFields.FieldByField` | kavm/src/kavm/adaptors/algod_transaction.py:92-129 | fields keep their keys and order, and each is converted by itself |
| `TxnByteFields.FieldText` | kavm/src/kavm/adaptors/algod_transaction.py:100-104 | bytes become an address under exactly six keys, and base64 under the others |
| `TxnByteFields.ParamsText` | kavm/src/kavm/adaptors/algod_transaction.py:96-99 | of the asset parameters exactly `c`, `f` and `r` become addresses |
| `TxnByteFields.ArgumentsText` | kavm/src/kavm/adaptors/algod_transaction.py:106-107 | application arguments become base64 |
| `TxnByteFields.NoListNoDict` | kavm/src/kavm/adaptors/algod_transaction.py:96-107 | arguments that are no list and parameters that are no dictionary |
| `TxnByteFields.FieldBytes` | kavm/src/kavm/adaptors/algod_transaction.py:118-126 | text becomes a key under the six keys and `rekey`, stays under `type`, and is base64 or else its characters under the others |
| `TxnByteFields.ParamsBytes` | kavm/src/kavm/adaptors/algod_transaction.py:114-117 | `c`, `f` and `r` become keys again |
| `TxnByteFields.ArgumentsBytes` | kavm/src/kavm/adaptors/algod_transaction.py:127-128 | and application arguments bytes |
| `TxnByteFields.FalsyIs` | kavm/src/kavm/adaptors/algod_transaction.py:99-120 | the values that the SDK's address functions return as they are |
| `TxnByteFields.AddressBack` | kavm/src/kavm/adaptors/algod_transaction.py:99-120 | address fields come back if and only if they are empty or 32 bytes |
| `TxnByteFields.FieldComesBack` | kavm/src/kavm/adaptors/algod_transaction.py:92-129 | the exact values that survive both conversions, key by key |
| `TxnByteFields.DesanitizeUndoesSanitize` | kavm/src/kavm/adaptors/algod_transaction.py:92-129 | desanitizing undoes sanitizing if and only if every field is such a value; a byte-string `rekey` never is, for the two key lists differ |

## Left out

- The K semantics itself, `krun`, `kast`, the Bison parsers, temporary files and Kore terms: the evaluator is a parameter.
- SHA-512/256 and SHA-512: functions, with no more assumed than a lemma says.
- Characters from 128 on in the hook's decoders: they index the digit table with a negative `char`, which C++ leaves undefined.
- `hooks/hooks.cpp`: allocation and copying around the codec.
- Fees, close-remainder fields, clawback, freezing and rekeying in the vault's ledger: its own methods never use them, and a frozen asset only makes transfers fail.
- Asset parameters other than the total (decimals, names, manager addresses).
- ABI encoding, message packing, HTTP routes other than those modelled, and the transaction composer.
- TransferKeeps: frozen holdings and the close-to form are not modelled; the contract's own methods use neither.
- Numbers that Python's `int` also reads, with spaces, a plus sign or underscores: K prints none.
- The sorting of dictionary keys: scenarios are written with sorted keys anyway.
- A dump without its accounts or transactions, or with keys that accounts do not have: the evaluator's reply always has both.
- `intermediate_k_state`: it writes the programs of the tracked accounts as a submission without transactions does, and keeps the answer out of the tracked state.
- Characters outside ASCII in names and in text fields that are sent as they are.
- The rest of `prover.py`: decorators, monkey-patching and claim assembly; and any claim that the printed Python text evaluates like TEAL, since `/` is true division there.
