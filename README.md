# Silkysig account indexer, API-key registry, faucet cooldown and chat quoting — a Dafny model

This project models four parts of the SilkyWay backend.

- **The account indexer.** `AccountService.indexSilkysigTx` reads one finalised Solana transaction. It mirrors what the transaction did to a managed ("Silkysig") account into three tables: accounts, operators and events. The steps are:
  - classify the program log lines into event kinds, using one "inside the program" flag and the instruction table;
  - locate the managed account among the transaction's keys, first by an on-chain fetch, then, for a closing transaction only, in the local mirror;
  - upsert the account row;
  - apply one case per event kind. Operators are found by diffing the post-transaction snapshot with the mirror, and amounts are taken from the first token-balance delta;
  - append one event row per kind;
  - resync every operator slot when the account is created;
  - commit once.
- **The API-key registry** (`AuthService`): single-use sign-in challenges with a 60-second lifetime; one key record per public key, which can be issued, re-issued, validated and revoked.
- **The devnet faucet's cooldown** (`SolanaService.requestAirdrop`): ten minutes per wallet, started only by a confirmed airdrop.
- **The support chat** (`ChatService`): the single-quote escaping of shell arguments, and how `sendMessage` maps failures to `OPENCLAW_UNAVAILABLE` or `INTERNAL_ERROR`.

## Layout

| file | module | what it holds |
|---|---|---|
| wrappers.dfy | Wrappers | `Option`, `Result` |
| text.dfy | Text | `includes`, the `\w` class, character counts |
| ledger.dfy | Ledger | addresses, on-chain account snapshots, the transaction record, the fetch oracle `Chain` |
| entities.dfy | Entities | the account, operator and event rows and the status and event-kind enumerations |
| mirror_store.dfy | MirrorStore | the three tables as one value `Store`, and the schema's constraints `Inv` |
| log_classifier.dfy | LogClassifier | `parseSilkysigEvents`, as written and corrected |
| state_differ.dfy | StateDiffer | `findNewOperator`, `findRemovedOperator` |
| balance_delta.dfy | BalanceDelta | `extractTokenBalanceChange` |
| reconciler.dfy | Reconciler | the whole indexing call as functions of the store, and what it keeps |
| account_indexer.dfy | AccountIndexer | `class AccountService` with the three tables as fields, and the imperative `IndexSilkysigTx` |
| auth.dfy | ApiKeys | the key registry functions and `class AuthService` |
| faucet.dfy | Faucet | the cooldown functions and `class FaucetService` |
| chat.dfy | Chat | `escapeShellArg`, POSIX quote removal, `sendMessage`'s error mapping |

## Modelling choices

- **Reads see their own writes.** Inside one indexing call, the ORM's `findOne` and `find` run after `persist` or `remove` and before `flush`. The model assumes they see the call's own pending writes without committing them; nothing is written before the flush. `IndexSilkysigTx` works on a pending copy of the tables. It assigns the copy back to the fields only at the flush.
- **An exception leaves the tables unchanged.** The `catch` at the end swallows any exception, and the tables are then as before. Two exceptions are modelled:
  - `new PublicKey(accountKeys[0])` on an empty key list;
  - reading an operator slot at or past the end of the slot array, when `operatorCount` exceeds the array. This is `Fault.UndefinedSlot`.
- **The on-chain fetch is a map.** `fetchAccount` is the map `Chain`. A key in the map is a fetched account. A key outside it stands for both `null` and a throw, which the code treats alike.
- **Operator rows are in insertion order.** They are a sequence, so "the first stored operator not on chain" has a definite meaning. `find` has no `orderBy`; the model fixes the order the database leaves open.
- **SHA-256 and the signature check are parameters.** They are const function fields of `AuthService`. The uuid, the 32 random bytes (as hex) and the clock are inputs to the operations.
- **The flush's uniqueness check.** A new key hash that would clash with another row's hash makes the flush fail on the unique `key_hash` constraint. This is `DuplicateKeyHash`, and the table is then unchanged.
- **The faucet's clock.** The rate check reads the clock twice; the model reads it once, as `now`. The time recorded after the airdrop is a separate input, `doneAt`. A stored time of `0` is falsy in JavaScript, so it disables the check. The model keeps that.
- **Quote removal.** `Chat.Unquote` models quote removal as sections 2.2.1 (Escape Character) and 2.2.2 (Single-Quotes) of the POSIX.1-2017 Shell Command Language describe it. An unquoted special character makes a text not one literal word.

## Model

| member | source | states |
|---|---|---|
| LogClassifier.InstructionKind | apps/backend/src/api/service/account.service.ts:11-19 | exactly the seven Anchor instruction names have a kind, and none of them is `UNPAUSED` (a pause toggle is recorded as `PAUSED`) |
| LogClassifier.InstructionNameFrom | apps/backend/src/api/service/account.service.ts:362 | a captured name is non-empty, consists of `\w` characters, and follows `Instruction: ` in the line |
| LogClassifier.InstructionNameFromIsLeftmost | apps/backend/src/api/service/account.service.ts:362 | the search from position `i` finds nothing iff no position from `i` on starts `Instruction: ` followed by a word character; otherwise it returns the whole word run after the leftmost such position |
| LogClassifier.Step | apps/backend/src/api/service/account.service.ts:352-358 | a clear flag is set exactly by a line containing both `SiLKos` and `invoke`; a set flag stays set on every `invoke` line (nested calls); a set flag is cleared exactly by a `success` line that is no `invoke` line |
| LogClassifier.Classified | apps/backend/src/api/service/account.service.ts:347-366 | the first `k` lines never yield more than `k` kinds, and never `UNPAUSED` |
| LogClassifier.Classify | apps/backend/src/api/service/account.service.ts:344-345 | absent logs yield no kinds; otherwise no more kinds than lines |
| LogClassifier.ParseSilkysigEvents | apps/backend/src/api/service/account.service.ts:344-369 | the flag loop returns exactly `Classify(logs)` |
| LogClassifier.SelectedUpToExplains | apps/backend/src/api/service/account.service.ts:350-366 | the selected line positions of the first `k` lines, in increasing order, are exactly the lines read while the flag is set that name a known instruction, each naming the kind at its position |
| LogClassifier.ClassifyExplained | apps/backend/src/api/service/account.service.ts:344-369 | there is an increasing list of line positions that explains the kinds: each kind comes from a line read inside the program that names it, and every such line contributes its kind |
| LogClassifier.NoInstructionNoKinds | apps/backend/src/api/service/account.service.ts:362-365 | lines that name no known instruction yield no kinds |
| LogClassifier.InheritedNameIsPushed | apps/backend/src/api/service/account.service.ts:362-365 | for the lines `Program SiLKos invoke [1]` and `Program log: Instruction: toString`, the code as written pushes the inherited `toString` member, while the corrected classifier yields nothing |
| LogClassifier.ClassifiedAsWritten | apps/backend/src/api/service/account.service.ts:347-366 | the loop as written pushes at most one value per line, and each value is a kind or an inherited `Object.prototype` member |
| LogClassifier.AsWrittenAgreesWithoutInherited | apps/backend/src/api/service/account.service.ts:362-365 | on lines that name no inherited member, the lookup as written pushes exactly the kinds of the corrected classifier, in order |
| StateDiffer.FindNewOperator | apps/backend/src/api/service/account.service.ts:376-381 | no operator iff `operatorCount` is 0; a fault iff the last slot in use is past the slot array; otherwise exactly slot `operatorCount - 1` |
| StateDiffer.FirstAbsent | apps/backend/src/api/service/account.service.ts:395-401 | nothing iff every row's operator is present; otherwise a row at some index whose operator is absent, with every earlier row's operator present |
| StateDiffer.RemovedOperator | apps/backend/src/api/service/account.service.ts:389-401 | a fault iff a slot in use is undefined; nothing iff every stored row's operator is in a slot in use; otherwise a stored row whose operator is in no slot in use |
| StateDiffer.FindRemovedOperator | apps/backend/src/api/service/account.service.ts:389-401 | the set-building loop and the scan return the first stored row whose operator is not among the first `operatorCount` slots, or fault on an undefined slot |
| BalanceDelta.PreAmount | apps/backend/src/api/service/account.service.ts:413-414 | the amount of the first pre entry with the same account index, or 0 when there is none |
| BalanceDelta.FirstChange | apps/backend/src/api/service/account.service.ts:411-425 | a reported amount is strictly positive |
| BalanceDelta.FirstChangeIsFirst | apps/backend/src/api/service/account.service.ts:411-427 | nothing iff every post entry has a zero delta; otherwise the first post entry in list order with a nonzero delta, with its owner as counterparty and the absolute delta as amount |
| BalanceDelta.ExtractTokenBalanceChange | apps/backend/src/api/service/account.service.ts:404-407 | nothing when either balance list is absent; otherwise the first change of the two lists |
| BalanceDelta.TransferOfFourHundred | apps/backend/src/api/service/account.service.ts:411-424 | a balance going from 1000 to 600 is reported as 400 moved, with the entry's owner as counterparty |
| MirrorStore.RowsOf | apps/backend/src/api/service/account.service.ts:241 | `find({ account })` returns exactly the rows of that account |
| MirrorStore.ExceptSet | apps/backend/src/api/service/account.service.ts:243 | removing rows keeps exactly the rows not removed, and never lengthens the table |
| MirrorStore.DropAccount | apps/backend/src/api/service/account.service.ts:241-244 | after the close loop, exactly the rows of other accounts remain |
| MirrorStore.ExceptUnique | apps/backend/migrations/Migration20260214120000.ts:29 | removing rows keeps (account, operator) unique |
| MirrorStore.AppendUnique | apps/backend/src/api/service/account.service.ts:252-258 | inserting a pair that `findOne` does not find keeps (account, operator) unique |
| Reconciler.FirstOnChainIsFirst | apps/backend/src/api/service/account.service.ts:185-197 | no key is located iff no key is fetched; otherwise the first fetched key, with its snapshot |
| Reconciler.FirstStoredIsFirst | apps/backend/src/api/service/account.service.ts:202-209 | no key iff none is a mirrored account; otherwise the first one that is |
| Reconciler.LocateFindsFirst | apps/backend/src/api/service/account.service.ts:185-212 | the located account is the first fetched key with its snapshot; it is a mirrored key without a snapshot only when no key is fetched and `ACCOUNT_CLOSED` is among the kinds; nothing is located iff no key is fetched and either the transaction does not close an account or no key is mirrored |
| Reconciler.FirstOnChain | apps/backend/src/api/service/account.service.ts:185-197 | a located key is one of the transaction's keys, is fetched, and comes with its on-chain snapshot |
| Reconciler.FirstStored | apps/backend/src/api/service/account.service.ts:202-209 | a found key is one of the transaction's keys |
| Reconciler.Locate | apps/backend/src/api/service/account.service.ts:185-212 | a located account is one of the transaction's keys; with a snapshot it is the fetched snapshot of that key; without one the transaction closes an account |
| Reconciler.Resolved | apps/backend/src/api/service/account.service.ts:289-295 | every kind but `PAUSED` is kept; `PAUSED` becomes `PAUSED` or `UNPAUSED` exactly as the snapshot's pause flag says, and stays `PAUSED` without a snapshot |
| Reconciler.Dispatch | apps/backend/src/api/service/account.service.ts:233-297 | the `switch` never touches the events; it faults only for an operator add or remove whose snapshot has an undefined slot in use |
| Reconciler.DispatchEffect | apps/backend/src/api/service/account.service.ts:233-297 | per case: a create sets the account `ACTIVE`; a close sets it `CLOSED` and drops exactly its operator rows; an add with a newest slot inserts (account, slot operator, slot limit) unless the pair is there and carries that operator and limit; a remove deletes the stored row `RemovedOperator` finds, of this account and in no slot in use, and carries its operator; a transfer or deposit carries the balance change's counterparty and amount; nothing else changes, and no other account |
| Reconciler.ApplyKind | apps/backend/src/api/service/account.service.ts:229-301 | one kind keeps the old events and appends one row recording the kind for the located account, with the payload for its kind |
| Reconciler.ApplyKindEffect | apps/backend/src/api/service/account.service.ts:229-301 | one kind succeeds iff its `switch` does, and is then the `switch`'s tables plus one event row with the resolved kind and the payload the `switch` prepared |
| Reconciler.ApplyKinds | apps/backend/src/api/service/account.service.ts:229-301 | the loop over the kinds appends one event row per kind |
| Reconciler.ResyncFrom | apps/backend/src/api/service/account.service.ts:305-317 | the resync from slot `i` faults iff a slot from `i` on is in use and undefined; otherwise it keeps the accounts and the events and only adds operator rows |
| Reconciler.Resync | apps/backend/src/api/service/account.service.ts:303-317 | the resync runs only for a creating transaction with a snapshot and faults only when a slot in use is undefined; it keeps the accounts and the events |
| Reconciler.Work | apps/backend/src/api/service/account.service.ts:229-317 | the event loop and the resync append one event row per kind |
| Reconciler.Indexed | apps/backend/src/api/service/account.service.ts:167-212 | no kinds, absent account keys, or no fetched key in a non-closing transaction leave the tables unchanged |
| Reconciler.AddRowKeeps | apps/backend/src/api/service/account.service.ts:252-258 | inserting an operator only when `findOne` does not find it keeps the schema's constraints, and afterwards the pair is found |
| Reconciler.DispatchKeeps | apps/backend/src/api/service/account.service.ts:233-297 | each case of the `switch` keeps the schema's constraints, the set of accounts and the events |
| Reconciler.ApplyKindKeeps | apps/backend/src/api/service/account.service.ts:229-301 | one kind's case plus its event row keeps the constraints and the accounts and appends exactly one row, for the located account, with the txid, the actor and the resolved kind |
| Reconciler.ApplyKindsKeeps | apps/backend/src/api/service/account.service.ts:229-301 | the loop over the kinds appends exactly one event row per kind, in order, after the old events, and keeps the constraints and the accounts |
| Reconciler.ResyncKeeps | apps/backend/src/api/service/account.service.ts:305-317 | the create-time resync faults iff a slot in use is undefined; otherwise it keeps the accounts, the events, the existing rows and the constraints, leaves every slot in use mirrored for the account, and every row it adds is (account, operator, limit) of a slot in use |
| Reconciler.ResyncAddsOnlySlots | apps/backend/src/api/service/account.service.ts:305-317 | the resync keeps the existing rows as a prefix, and every row after them is (account, operator, limit) of a slot in use from `i` on |
| Reconciler.ResyncCovers | apps/backend/src/api/service/account.service.ts:305-317 | after the resync every slot in use from `i` on has a row for the account |
| Reconciler.ResyncInv | apps/backend/src/api/service/account.service.ts:305-317 | the resync keeps the schema's constraints |
| Reconciler.WorkKeeps | apps/backend/src/api/service/account.service.ts:229-317 | the event loop followed by the resync appends one event row per kind, in order, and keeps the constraints and the accounts |
| Reconciler.IndexedKeeps | apps/backend/src/api/service/account.service.ts:165-323 | one call keeps the schema's constraints; either nothing changes, or the located account is mirrored, no other account is added, and exactly one event row per classified kind is appended, in order, carrying the txid, `accountKeys[0]` as actor and the resolved kind |
| Reconciler.ApplyKindsTotal | apps/backend/src/api/service/account.service.ts:247-271 | without a snapshot, or with every slot in use defined, no case throws |
| Reconciler.ClosingTransaction | apps/backend/src/api/service/account.service.ts:238-245 | a located closing transaction leaves the account `CLOSED`, removes exactly that account's operator rows, and appends one `ACCOUNT_CLOSED` row with no payload |
| Reconciler.CreatingTransaction | apps/backend/src/api/service/account.service.ts:303-317 | a creating transaction for a fetched account whose slots are all defined commits one event row per kind and leaves every operator in use mirrored |
| Reconciler.StepTouchesOnlyPda | apps/backend/src/api/service/account.service.ts:233-300 | one kind changes only the located account: its status by a create or a close, and its operator rows |
| Reconciler.ApplyKindsStatus | apps/backend/src/api/service/account.service.ts:229-301 | after the event loop the located account has the status the last create or close among the kinds gives it, and every other account is unchanged |
| Reconciler.ApplyKindsKeepsOtherRows | apps/backend/src/api/service/account.service.ts:229-301 | the event loop keeps every other account's operator rows |
| Reconciler.ResyncTouchesOnlyPda | apps/backend/src/api/service/account.service.ts:305-317 | the resync adds rows of the account only |
| Reconciler.WorkTouchesOnlyPda | apps/backend/src/api/service/account.service.ts:229-317 | the event loop and the resync change only the located account's status and rows |
| Reconciler.Pending | apps/backend/src/api/service/account.service.ts:214-226 | the tables the work starts from add at most the located account, as a new `ACTIVE` row when it is not mirrored, and keep the operator rows and the events |
| Reconciler.IndexedIsWork | apps/backend/src/api/service/account.service.ts:165-323 | a located call that can record its account commits its work on the pending tables when that work succeeds, and leaves the tables unchanged when it throws; with every slot in use defined it cannot throw |
| Reconciler.AbandonedCreate | apps/backend/src/api/service/account.service.ts:303-323 | a creating transaction for a fetched account with a slot in use past the end of the slot array throws and leaves the tables unchanged |
| Reconciler.CommittingTransaction | apps/backend/src/api/service/account.service.ts:165-323 | a call that classifies kinds, locates an account it can record and whose snapshot's slots in use are defined changes the tables: one event row per kind, in order, with its resolved kind and payload; the located account mirrored with the status its creates and closes give it; no other account or other account's rows changed |
| Reconciler.StatusAfterNoClose | apps/backend/src/api/service/account.service.ts:233-240 | without a close among the kinds the status ends `ACTIVE` after a create and is kept otherwise |
| Reconciler.CreatedStaysActive | apps/backend/src/api/service/account.service.ts:214-240 | a creating transaction for a fetched account with every slot in use defined leaves the account `ACTIVE` unless it also closes it |
| AccountIndexer.AccountService.IndexSilkysigTx | apps/backend/src/api/service/account.service.ts:165-324 | the tables afterwards are `Indexed` of the tables before, and the schema's constraints are preserved |
| AccountIndexer.AccountService.LocateAccount | apps/backend/src/api/service/account.service.ts:185-212 | the two key loops locate what `Locate` describes |
| AccountIndexer.AccountService.LocateOnChain | apps/backend/src/api/service/account.service.ts:185-197 | the fetch loop stops at the first fetched key |
| AccountIndexer.AccountService.LocateInStore | apps/backend/src/api/service/account.service.ts:202-209 | the lookup loop stops at the first mirrored key |
| AccountIndexer.AccountService.Process | apps/backend/src/api/service/account.service.ts:229-317 | the event loop and the resync loop compute `Work` on the pending tables |
| AccountIndexer.AccountService.ApplyEvent | apps/backend/src/api/service/account.service.ts:229-300 | one iteration of the event loop computes `ApplyKind` |
| AccountIndexer.AccountService.RemoveAll | apps/backend/src/api/service/account.service.ts:241-244 | removing the account's rows one at a time leaves `DropAccount` of the table |
| ApiKeys.NonceInjective | apps/backend/src/api/auth/auth.service.ts:21 | different uuids give different nonces |
| ApiKeys.FindOne | apps/backend/src/api/auth/auth.service.ts:45-61 | `findOne` on the pubkey or the key-hash column: nothing iff no record holds the value there, else the first record that does |
| ApiKeys.Issue | apps/backend/src/api/auth/auth.service.ts:45-53 | an issue appends a record iff the pubkey has none, otherwise the table keeps its size; afterwards the pubkey has a fresh unrevoked record with the new hash and `now`, and every other pubkey's record is unchanged |
| ApiKeys.Validate | apps/backend/src/api/auth/auth.service.ts:59-64 | an unknown hash gives nothing; a result is the pubkey of an unrevoked record with that hash |
| ApiKeys.Revoke | apps/backend/src/api/auth/auth.service.ts:66-72 | `Key not found` iff no record has the hash; otherwise the first record with the hash gets `revokedAt = now` and every other record is unchanged |
| ApiKeys.RevokeKeepsOthers | apps/backend/src/api/auth/auth.service.ts:66-72 | revoking one hash leaves the validation of every other hash as it was |
| ApiKeys.ValidateRow | apps/backend/src/api/auth/auth.service.ts:59-64 | with unique hashes, validating a record's hash gives its pubkey iff it is not revoked |
| ApiKeys.IssueKeepsUnique | apps/backend/src/api/auth/auth.service.ts:45-54 | issuing updates the pubkey's record or appends one, leaves every other pubkey's record as it was, and keeps pubkeys and hashes unique, so each pubkey has at most one record |
| ApiKeys.IssueKeepsOthers | apps/backend/src/api/auth/auth.service.ts:45-54 | issuing a key for one pubkey leaves another pubkey's key valid exactly as before |
| ApiKeys.IssueThenValidate | apps/backend/src/api/auth/auth.service.ts:42-63 | a freshly issued key validates to its pubkey |
| ApiKeys.RevokeThenValidate | apps/backend/src/api/auth/auth.service.ts:66-72 | after a revoke, that key no longer validates |
| ApiKeys.ReissueAfterRevoke | apps/backend/src/api/auth/auth.service.ts:46-49 | re-issuing after a revoke makes the new key valid for the same pubkey, while the revoked key stays invalid |
| ApiKeys.AuthService.GenerateChallenge | apps/backend/src/api/auth/auth.service.ts:20-24 | returns `silk_` + uuid, and stores it for the pubkey with expiry now + 60000, replacing any earlier challenge; the key table is unchanged |
| ApiKeys.AuthService.VerifyAndIssueKey | apps/backend/src/api/auth/auth.service.ts:26-57 | no challenge or an expired one: `NoValidChallenge` and nothing changes; a live challenge is deleted whatever follows; a bad signature: `SignatureFailed` and the table is unchanged; otherwise `sw_` + entropy is returned and the table becomes `Issue` of it, unless the hash clashes with another row's |
| ApiKeys.AuthService.ValidateKey | apps/backend/src/api/auth/auth.service.ts:59-64 | the answer is `Validate` of the key's SHA-256 |
| ApiKeys.AuthService.RevokeKey | apps/backend/src/api/auth/auth.service.ts:66-72 | the answer and the table are those of `Revoke` on the key's SHA-256; the challenges are unchanged |
| Faucet.CeilDiv | src/solana/solana.service.ts:71 | `Math.ceil(n / d)`: the least integer `q` with `n <= q * d` |
| Faucet.WaitBounds | src/solana/solana.service.ts:71 | while the cooldown runs, the reported wait is between 1 and 600 seconds |
| Faucet.RequestedTouchesOwnWallet | src/solana/solana.service.ts:69-78 | a request reads and writes only its own wallet's entry; a failure, rate-limited or not, records nothing; a success records `doneAt` |
| Faucet.LimitedRequest | src/solana/solana.service.ts:69-73 | a rate-limited request reports the remaining cooldown in seconds rounded up, which is 1..600, whatever the airdrop would do, so no airdrop takes part in its answer |
| Faucet.CooldownElapsed | src/solana/solana.service.ts:70 | once 600000 ms have passed since the last success, or for a wallet never served, the check passes |
| Faucet.Requested | src/solana/solana.service.ts:69-78 | a limited request reports `RateLimited` with `WaitSeconds` of the elapsed time; a request succeeds iff it is not limited and the airdrop is confirmed, answering its txid and recording `doneAt` for the wallet; a failure leaves the times unchanged, and the airdrop failure is reported iff the request was not limited |
| Faucet.FaucetService.RequestAirdrop | src/solana/solana.service.ts:65-81 | the answer and the remembered times are those of `Requested` |
| Chat.EscapeShellArg | apps/backend/src/chat/chat.service.ts:97-100 | the result starts and ends with `'` |
| Chat.QuoteBodyLength | apps/backend/src/chat/chat.service.ts:99 | each `'` grows by three characters, every other character is kept |
| Chat.EscapeLength | apps/backend/src/chat/chat.service.ts:99 | the output length is the input length + 2 + 3 × the number of `'` |
| Chat.EscapeWithoutQuotes | apps/backend/src/chat/chat.service.ts:99 | text without `'` is just wrapped in quotes |
| Chat.UnquoteEscape | apps/backend/src/chat/chat.service.ts:98-99 | POSIX quote removal of the escaped argument gives back exactly the original text, whatever it contains |
| Chat.IndexOf | apps/backend/src/chat/chat.service.ts:50 | `indexOf`: nothing iff the character is absent; otherwise its first position |
| Chat.Attempt | apps/backend/src/chat/chat.service.ts:43-73 | a failed command yields its own code; after the command ran, an error carries no code or `INTERNAL_ERROR`, output without `{` is `INTERNAL_ERROR`, and a reply is non-empty |
| Chat.SendMessage | apps/backend/src/chat/chat.service.ts:35-95 | a reply is non-empty, and a command that ran is never reported as unavailable |
| Chat.ErrorMapping | apps/backend/src/chat/chat.service.ts:35-95 | `OPENCLAW_UNAVAILABLE` iff the command failed with `ENOENT` or `ETIMEDOUT`; a reply is the non-empty text of the first payload of the JSON from the first `{`; output without `{` is `INTERNAL_ERROR` |

## Left out

- The transaction builders, the on-chain reads and the queries of `account.service.ts` (lines 38-161 and 328-340): wrappers over the program client and the ORM, with no logic of their own.
- Log output (`logger.log`, `logger.warn`, `logger.error`): no effect on state.
- Address decoding. `PublicKey` construction and `toBase58` are not modelled; addresses are opaque strings. A key that does not decode throws at `new PublicKey(key)` (account.service.ts:186 in the fetch loop, 203 in the store loop). Both are outside the inner `try`, so the whole call is abandoned through the outer `catch` (321-323) and the tables stay unchanged. The model does not capture this abandon: `Chain` treats such a key as absent, and the search goes on to the next key. Elsewhere a decoding failure is not modelled.
- Big-number parsing. Token amounts and `perTxLimit` are the integers their decimal strings denote. `BigInt` throwing on a malformed amount is not modelled.
- `staticAccountKeys` versus `accountKeys`: the two sources of the key list are one optional list.
- A missing token-balance `owner` is the empty string, which is what `owner || ''` yields.
- Redelivery of the same transaction is not made idempotent: the source appends its events again, and so does the model.
- Concurrency and async ordering: each call is atomic. Interleaved calls on the same account are not modelled.
- A failure of the final `flush` itself, such as a database error, is not modelled. The only flush failure modelled is the auth key-hash clash.
- `Reconciler.Indexed`: the call classifies the logs with the corrected classifier `LogClassifier.Classify`, not with the table lookup as written. Take logs whose as-written classification holds an inherited name, such as `Program log: Instruction: toString` read inside the program. The source pushes the inherited function as an event kind and persists a row with it as the event type. The `event_type` check of apps/backend/migrations/Migration20260214120000.ts:42 rejects that row at the flush, and the outer `catch` leaves the tables unchanged. The model indexes only the real kinds of such a transaction. `LogClassifier.AsWrittenAgreesWithoutInherited` shows that the two classifiers agree on logs that name no inherited member.
- `AccountIndexer.AccountService.IndexSilkysigTx`: it computes `Reconciler.Indexed`, so the line above applies to it too.
- `Reconciler.Indexed`: its own contract states only the no-change cases that end before the work. A call whose work throws is abandoned and leaves the tables unchanged; that case is stated by `Reconciler.IndexedIsWork` and, for the resync, by `Reconciler.AbandonedCreate`. What a committed call does is stated by `Reconciler.CommittingTransaction`; the operator rows of the located account after a whole call are stated by `Reconciler.DispatchEffect` step by step and by `Reconciler.ResyncKeeps`, not as one formula.
- Whether the ORM's reads see unflushed writes is not visible in the source. The model assumes they do, and that they commit nothing. If the unit of work auto-flushed before a `find` or `findOne` (lines 241, 252, 309, after the persists at 223, 257 and 300), a throw after such a read, such as an undefined slot in the resync at 306-317, would leave the writes flushed before it in place; the model then leaves the tables unchanged instead.
- The signature check receives the nonce, the signature and the pubkey as strings. Base64 and pubkey decoding are inside that parameter, so an undecodable input counts as a failed check.
- `onModuleInit` of the faucet and chat services: connection, keypair and prompt-file setup.
- `Faucet.FaucetService.RequestAirdrop`: the `RATE_LIMITED` error carries the wait in seconds; the message text is not built. The clock's two reads in the check are one input.
- `Chat.SendMessage`: running the command and `JSON.parse` are parameters. A thrown error's `code` is an input, so whether Node reports a missing binary as `ENOENT` or as exit status 127, and a timeout as `ETIMEDOUT` or as a kill signal, is outside the model. A truthy `text` that is not a string counts as absent.
- The 10 MB output buffer and the 30-second timeout of the command are inside the `exec` parameter.

## Findings

| source | as written | input that shows it | evidently intended | confidence | as-written member | corrected member |
|---|---|---|---|---|---|---|
| apps/backend/src/api/service/account.service.ts:362-365 | `SILKYSIG_INSTRUCTION_MAP[match[1]]` looks the captured name up in a plain object literal. Names inherited from `Object.prototype` (`toString`, `constructor`, `valueOf`, …) are truthy, so the inherited function is pushed as an event kind. | logs `["Program SiLKos invoke [1]", "Program log: Instruction: toString"]` | only the seven names of the table have a kind; any other name is ignored | not executed | LogClassifier.InheritedNameIsPushed | LogClassifier.Classify |
