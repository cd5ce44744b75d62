/** What the indexer receives from the ledger: a finalised transaction record
    and the managed-account snapshots the program client can fetch. Addresses
    are opaque base58 strings; decoding them is not modelled. */
module Ledger {
  import opened Wrappers

  type Address = string

  /** One operator slot of an on-chain managed account: the delegate and its
      per-transaction spending limit (an unsigned big number on chain). */
  datatype Slot = Slot(pubkey: Address, perTxLimit: nat)

  /** A managed account as fetched from the chain after the transaction.
      `operators` is the slot array; only the first `operatorCount` slots are
      in use. */
  datatype OnChainAccount = OnChainAccount(
    owner: Address,
    mint: Address,
    isPaused: bool,
    operatorCount: nat,
    operators: seq<Slot>)

  /** Reading `operators[i]` for every `i < operatorCount` succeeds; otherwise
      the code dereferences an undefined slot and throws. */
  predicate SlotsReadable(a: OnChainAccount) {
    a.operatorCount <= |a.operators|
  }

  /** One entry of `preTokenBalances` / `postTokenBalances`: the index of the
      token account in the transaction, its owner (`""` when absent) and its
      raw amount, already parsed from its decimal string. */
  datatype TokenBalance = TokenBalance(accountIndex: int, owner: Address, amount: int)

  /** The parts of a transaction record the indexer reads. `None` stands for
      a property that is absent (`undefined` or `null`). */
  datatype TxInfo = TxInfo(
    logMessages: Option<seq<string>>,
    accountKeys: Option<seq<Address>>,
    preTokenBalances: Option<seq<TokenBalance>>,
    postTokenBalances: Option<seq<TokenBalance>>)

  /** The on-chain fetch: `chain` holds exactly the addresses for which
      `fetchAccount` returns a managed account; for every other address it
      returns null or throws, which the indexer treats alike. */
  type Chain = map<Address, OnChainAccount>
}
