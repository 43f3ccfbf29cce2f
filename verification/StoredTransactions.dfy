/** The records of `StoredTransaction.ts`: what the relay keeps of a transaction it has signed. */
module StoredTransactions {
  import opened Wrappers

  datatype Address = Address(id: nat)

  datatype Block = Block(number: int, timestamp: int)

  datatype ServerAction =
    | RegisterServer
    | AddWorker
    | RelayCall
    | ValueTransfer
    | DepositWithdrawal
    | Penalization
    | SetOwner
    | AuthorizeHub

  datatype TransactionType = Legacy | FeeMarket

  datatype Fees = Fees(max: nat, priority: nat) {
    /** Neither fee is below the other pair's. */
    predicate AtLeast(other: Fees) {
      other.max <= max && other.priority <= priority
    }
  }

  /** Call data: the four-byte method selector and an abstract id of the encoded arguments. */
  datatype CallData = CallData(selector: nat, args: nat)

  /** The part of a transaction that a resend must not touch. */
  datatype Call = Call(to: Address, gas: nat, data: CallData, value: nat)

  /** The `nonceSigner` field, on which the store keeps a unique index. */
  datatype Key = Key(signer: Address, nonce: nat)

  /** A transaction hash, idealised as collision free: it is the signed content itself. */
  datatype TxId = TxId(key: Key, call: Call, fees: Fees)

  datatype StoredTx = StoredTx(
    key: Key,
    call: Call,
    fees: Fees,
    action: ServerAction,
    creationBlock: Block,
    attempts: nat,
    boostBlock: Option<Block>,
    minedBlock: Option<Block>)
  {
    function Id(): TxId {
      TxId(key, call, fees)
    }

    /** The timestamp the boosting check measures from. */
    function LastSent(): int {
      match boostBlock
      case Some(b) => b.timestamp
      case None => creationBlock.timestamp
    }

    predicate Pending() {
      minedBlock.None?
    }
  }

  /** A legacy transaction has one gas price, which is recorded as both fees. */
  function RecordedFees(kind: TransactionType, fees: Fees): Fees {
    match kind
    case Legacy => Fees(fees.max, fees.max)
    case FeeMarket => fees
  }

  /** The row written for a transaction on its first send. */
  function FirstAttempt(
    kind: TransactionType, key: Key, call: Call, fees: Fees, action: ServerAction, block: Block): StoredTx
  {
    StoredTx(key, call, RecordedFees(kind, fees), action, block, 1, None, None)
  }

  /** The row written when a transaction is signed again with the given fees. */
  function NextAttempt(kind: TransactionType, tx: StoredTx, fees: Fees, block: Block): StoredTx {
    tx.(fees := RecordedFees(kind, fees), attempts := tx.attempts + 1, boostBlock := Some(block))
  }

  /** The row written when a receipt has been found. */
  function WithMinedBlock(tx: StoredTx, block: Block): StoredTx {
    tx.(minedBlock := Some(block))
  }
}
