/** The three tables the indexer writes: managed accounts, their operators and
    their event history (status and event-type enumerations as the schema's
    check constraints list them). */
module Entities {
  import opened Wrappers
  import opened Ledger

  datatype Status = Active | Closed

  datatype EventKind =
    | AccountCreated
    | AccountClosed
    | Deposit
    | Transfer
    | OperatorAdded
    | OperatorRemoved
    | Paused
    | Unpaused

  /** A `silk_account` row; its `pda` is the key of the accounts map. */
  datatype AccountRow = AccountRow(owner: Address, mint: Address, status: Status)

  /** A `silk_account_operator` row: the account's pda, the operator and the
      limit (stored as decimal text; modelled as the number it denotes). */
  datatype OperatorRow = OperatorRow(account: Address, operator: Address, perTxLimit: nat)

  /** The JSON payload of an event, per kind. */
  datatype EventData =
    | OperatorPayload(operator: Address, perTxLimit: nat)
    | RemovedPayload(operator: Address)
    | TransferPayload(recipient: Address, amount: nat)
    | DepositPayload(sender: Address, amount: nat)

  /** A `silk_account_event` row. */
  datatype EventRow = EventRow(
    account: Address,
    kind: EventKind,
    txid: string,
    actor: Address,
    data: Option<EventData>)
}
