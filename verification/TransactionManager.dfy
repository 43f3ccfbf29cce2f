/**
 `TransactionManager.ts` as it runs when nothing interrupts it. Replies of the chain are parameters. Each call walks a
 path of the state machine of module NoncePipeline (a boost round by `RoundIsAPath`, the others by the lemmas of module
 CallPaths), so what is proved there of every interleaving holds of it.
 */
module TransactionManager {
  import opened Wrappers
  import opened StoredTransactions
  import opened TxStore
  import opened GasFees
  import opened NoncePipeline
  import opened Paths

  const ZERO_ADDRESS := Address(0)

  datatype SendError =
    | BalanceTooLow
    | ZeroDestination
    | InvalidFees
    | NotStored(error: StoreError)
    | BroadcastFailed
    | GasFeesUnavailable
    | MissingNonceError(nonce: nat)

  /** What the chain answers while one transaction is resent. */
  datatype Reply = Reply(balance: nat, broadcastSucceeds: bool)

  /** The EIP-1559 transaction constructor refuses a priority fee above the maximum fee. */
  predicate Signable(kind: TransactionType, fees: Fees) {
    kind.FeeMarket? ==> fees.priority <= fees.max
  }

  /** Why a transaction is not even signed. */
  function CheckError(kind: TransactionType, gas: nat, fees: Fees, balance: nat): Option<SendError> {
    if fees.max * gas > balance then Some(BalanceTooLow)
    else if !Signable(kind, fees) then Some(InvalidFees)
    else None
  }

  /** The state after a round has loaded its rows and decided whether to go on. */
  function Opened(c: Config, s: State, round: Round, txs: seq<StoredTx>): State {
    s.(worker := AfterLoading(c, round, txs), workerTime := round.block.timestamp, skipped := false)
  }

  lemma OpeningIsAPath(c: Config, s: State, round: Round, txs: seq<StoredTx>)
    requires s.worker == WorkerIdle && s.workerTime <= round.block.timestamp
    requires round.mined == s.ChainOf(round.signer).mined
    requires IsNonceRange(s.rows, round.signer, round.mined, None, txs)
    ensures Reaches(c, s, Opened(c, s, round, txs))
  {
    var counted := s.(worker := Counted(round), workerTime := round.block.timestamp, skipped := false);
    ReachesItself(c, s);
    ReachesNext(c, s, s, WorkStep(StartRound(round.signer, round.block)), counted);
    ReachesNext(c, s, counted, WorkStep(LoadPending(txs)), Opened(c, s, round, txs));
  }

  // ---------- An uninterrupted round ----------

  function FeesUsed(tx: StoredTx, fees: Fees): Fees {
    if Underpriced(tx, fees) then fees else tx.fees
  }

  /** The protocol state after one turn of the boost loop. */
  function TurnEnd(c: Config, s: State, round: Round, txs: seq<StoredTx>, fees: Fees, i: nat, reply: Reply): State
    requires i < |txs|
  {
    var tx, next := txs[i], Boosting(round, txs, fees, i + 1);
    if CheckError(c.kind, tx.call.gas, FeesUsed(tx, fees), reply.balance).Some? then
      if Underpriced(tx, fees) then s.(worker := WorkerIdle) else s.(worker := next, skipped := true)
    else
      s.(rows := s.rows[tx.key := Attempt(c, tx, fees, round.block)],
         resends := s.resends + [Resend(tx.key, round.block.timestamp)],
         uneven := if s.skipped then s.uneven + {round.signer} else s.uneven,
         offered := if reply.broadcastSucceeds then s.offered + {tx.key} else s.offered,
         worker := if !reply.broadcastSucceeds && Underpriced(tx, fees) then WorkerIdle else next)
  }

  /** The protocol state in which the boost loop leaves off, from turn `i` on. */
  function LoopEnd(
    c: Config, s: State, round: Round, txs: seq<StoredTx>, fees: Fees, i: nat, replies: nat -> Reply): State
    requires i <= |txs|
    decreases |txs| - i
  {
    if i == |txs| then s.(worker := WorkerIdle)
    else
      var t := TurnEnd(c, s, round, txs, fees, i, replies(i));
      if t.worker.WorkerIdle? then t else LoopEnd(c, t, round, txs, fees, i + 1, replies)
  }

  /** The protocol state after a round over the given rows, with the given replies. */
  function RoundEnd(
    c: Config, s: State, round: Round, txs: seq<StoredTx>, minPriority: nat, baseFee: Option<nat>,
    replies: nat -> Reply): State
  {
    var loaded := Opened(c, s, round, txs);
    if !loaded.worker.Pricing? then loaded
    else if baseFee.None? then loaded.(worker := WorkerIdle)
    else
      var fees := NewFees(c, txs[0], minPriority, baseFee.value);
      LoopEnd(c, loaded.(worker := Boosting(round, txs, fees, 0)), round, txs, fees, 0, replies)
  }

  lemma TurnIsAPath(
    c: Config, from: State, s: State, round: Round, txs: seq<StoredTx>, fees: Fees, i: nat, reply: Reply)
    requires i < |txs| && s.worker == Boosting(round, txs, fees, i) && Reaches(c, from, s)
    ensures Reaches(c, from, TurnEnd(c, s, round, txs, fees, i, reply))
  {
    var tx := txs[i];
    var end := TurnEnd(c, s, round, txs, fees, i, reply);
    if CheckError(c.kind, tx.call.gas, FeesUsed(tx, fees), reply.balance).Some? {
      ReachesNext(c, from, s, WorkStep(CheckFails), end);
    } else {
      var stored := s.(rows := end.rows, resends := end.resends, uneven := end.uneven, worker := Resending(round, txs, fees, i));
      ReachesNext(c, from, s, WorkStep(StoreAttempt), stored);
      ReachesNext(c, from, stored, WorkStep(RebroadcastEnds(false, reply.broadcastSucceeds)), end);
    }
  }

  lemma {:induction false} LoopIsAPath(
    c: Config, from: State, s: State, round: Round, txs: seq<StoredTx>, fees: Fees, i: nat, replies: nat -> Reply)
    requires i <= |txs| && s.worker == Boosting(round, txs, fees, i) && Reaches(c, from, s)
    ensures Reaches(c, from, LoopEnd(c, s, round, txs, fees, i, replies))
    decreases |txs| - i
  {
    if i == |txs| {
      ReachesNext(c, from, s, WorkStep(RoundDone), s.(worker := WorkerIdle));
    } else {
      var t := TurnEnd(c, s, round, txs, fees, i, replies(i));
      TurnIsAPath(c, from, s, round, txs, fees, i, replies(i));
      if !t.worker.WorkerIdle? {
        LoopIsAPath(c, from, t, round, txs, fees, i + 1, replies);
      }
    }
  }

  /** What an uninterrupted round does, the protocol can do: its guarantees apply to it. */
  lemma RoundIsAPath(
    c: Config, s: State, round: Round, txs: seq<StoredTx>, minPriority: nat, baseFee: Option<nat>,
    replies: nat -> Reply)
    requires s.worker == WorkerIdle && s.workerTime <= round.block.timestamp
    requires round.mined == s.ChainOf(round.signer).mined
    requires IsNonceRange(s.rows, round.signer, round.mined, None, txs)
    ensures Reaches(c, s, RoundEnd(c, s, round, txs, minPriority, baseFee, replies))
  {
    var loaded := Opened(c, s, round, txs);
    OpeningIsAPath(c, s, round, txs);
    if loaded.worker.Pricing? {
      if baseFee.None? {
        ReachesNext(c, s, loaded, WorkStep(GasFeesFail), loaded.(worker := WorkerIdle));
      } else {
        var fees := NewFees(c, txs[0], minPriority, baseFee.value);
        var looping := loaded.(worker := Boosting(round, txs, fees, 0));
        ReachesNext(c, s, loaded, WorkStep(GasFeesArrive(minPriority, baseFee.value)), looping);
        LoopIsAPath(c, s, looping, round, txs, fees, 0, replies);
      }
    }
  }

  function CountUnderpriced(txs: seq<StoredTx>, fees: Fees): nat {
    if txs == [] then 0
    else CountUnderpriced(txs[..|txs| - 1], fees) + (if Underpriced(txs[|txs| - 1], fees) then 1 else 0)
  }

  function UnderpricedIndices(txs: seq<StoredTx>, fees: Fees): set<int> {
    set i | 0 <= i < |txs| && (txs[i].fees.max < fees.max || txs[i].fees.priority < fees.priority)
  }

  lemma {:induction false} CountUnderpricedExactly(txs: seq<StoredTx>, fees: Fees)
    ensures CountUnderpriced(txs, fees) == |UnderpricedIndices(txs, fees)|
  {
    if txs != [] {
      var n := |txs| - 1;
      CountUnderpricedExactly(txs[..n], fees);
      var before, now := UnderpricedIndices(txs[..n], fees), UnderpricedIndices(txs, fees);
      assert now == if Underpriced(txs[n], fees) then before + {n} else before;
    }
  }

  // ---------- Marking ----------

  /** A transaction without receipt so far, or one mined so long ago that it is about to be pruned. */
  predicate ShouldRecheck(tx: StoredTx, currentBlock: int, pruneAfterBlocks: int) {
    tx.minedBlock.None? || currentBlock - tx.minedBlock.value.number >= pruneAfterBlocks
  }

  /** What the worker makes of a row, given the block of the receipt of its last hash. */
  function Marked(tx: StoredTx, currentBlock: int, pruneAfterBlocks: int, receipts: TxId -> Option<Block>): StoredTx {
    var receipt := receipts(tx.Id());
    if ShouldRecheck(tx, currentBlock, pruneAfterBlocks) && receipt.Some?
       && (tx.minedBlock.Some? ==> receipt.value.number != tx.minedBlock.value.number)
    then WithMinedBlock(tx, receipt.value)
    else tx
  }

  function MarkedRows(rows: Rows, currentBlock: int, pruneAfterBlocks: int, receipts: TxId -> Option<Block>): Rows {
    map k | k in rows :: Marked(rows[k], currentBlock, pruneAfterBlocks, receipts)
  }

  /**
   A pending row survives marking and pruning as pending exactly if the hash it was last signed under has no
   receipt. So a transaction mined under the hash of an earlier attempt stays pending in the store.
   */
  lemma PendingUntilOwnReceipt(
    rows: Rows, k: Key, currentBlock: int, pruneAfterBlocks: int, receipts: TxId -> Option<Block>,
    upToBlock: int, upToTimestamp: int)
    requires k in rows && rows[k].Pending()
    ensures var after := RemoveArchived(
        MarkedRows(rows, currentBlock, pruneAfterBlocks, receipts), upToBlock, upToTimestamp);
      (k in after && after[k].Pending()) <==> receipts(rows[k].Id()) == None
  {
    var marked := MarkedRows(rows, currentBlock, pruneAfterBlocks, receipts);
    assert k in marked && marked[k] == Marked(rows[k], currentBlock, pruneAfterBlocks, receipts);
    if receipts(rows[k].Id()) == None {
      assert !Archived(marked[k], upToBlock, upToTimestamp);
    }
  }

  /** The oldest pending row stands at the mined count, and was sent or resent at least one timeout ago. */
  predicate IsDue(c: Config, oldest: StoredTx, minedCount: nat, block: Block) {
    && oldest.key.nonce == minedCount
    && (match oldest.boostBlock
        case Some(boost) => boost.timestamp + c.pendingTransactionTimeoutSeconds <= block.timestamp
        case None => oldest.creationBlock.timestamp + c.pendingTransactionTimeoutSeconds <= block.timestamp)
  }

  class TransactionManager {
    const config: Config
    const store: TxStoreManager
    var nonces: map<Address, nat>

    constructor (config: Config, store: TxStoreManager)
      ensures this.config == config && this.store == store && nonces == map[]
    {
      this.config := config;
      this.store := store;
      this.nonces := map[];
    }

    function Nonce(a: Address): nat
      reads this
    {
      if a in nonces then nonces[a] else 0
    }

    method PollNonce(signer: Address, pendingCount: nat) returns (nonce: nat)
      modifies this`nonces
      ensures nonce == PolledNonce(old(Nonce(signer)), pendingCount)
      ensures nonce >= pendingCount && nonce >= old(Nonce(signer))
      ensures Nonce(signer) == nonce
      ensures forall a :: a != signer ==> Nonce(a) == old(Nonce(a))
    {
      if pendingCount > Nonce(signer) {
        nonces := nonces[signer := pendingCount];
      }
      nonce := Nonce(signer);
    }

    /**
     A send takes the polled nonce and stores exactly one row under it, whether or not the broadcast then
     succeeds; a send refused by a check changes nothing. A refused insert would still have used its nonce.
     */
    method SendTransaction(request: Request, balance: nat, pendingCount: nat, broadcastSucceeds: bool)
      returns (r: Result<StoredTx, SendError>)
      requires store.Valid()
      modifies this`nonces, store
      ensures store.Valid()
      ensures var nonce := PolledNonce(old(Nonce(request.signer)), pendingCount);
        var row := FirstRow(config, request, nonce);
        if request.fees.max * request.call.gas > balance || request.call.to == ZERO_ADDRESS then
          && r == Err(if request.fees.max * request.call.gas > balance then BalanceTooLow else ZeroDestination)
          && nonces == old(nonces) && store.View() == old(store.View())
        else if !Signable(config.kind, request.fees) then
          r == Err(InvalidFees) && Nonce(request.signer) == nonce && store.View() == old(store.View())
        else
          && Nonce(request.signer) == nonce + 1
          && match PutError(old(store.View()), row, false)
             case None =>
               && store.View() == old(store.View())[row.key := row]
               && r == if broadcastSucceeds then Ok(row) else Err(BroadcastFailed)
             case Some(e) => store.View() == old(store.View()) && r == Err(NotStored(e))
      ensures forall a :: a != request.signer ==> Nonce(a) == old(Nonce(a))
      ensures forall k :: k in old(store.View()) ==> k in store.View() && store.View()[k] == old(store.View())[k]
      ensures forall k :: k in store.View() && k !in old(store.View()) ==>
        && k == Key(request.signer, Nonce(request.signer) - 1) && Carries(config.kind, store.View()[k], request)
        && store.View()[k].attempts == 1 && store.View()[k].boostBlock.None? && store.View()[k].Pending()
      ensures r.Ok? ==> r.value.key in store.View() && r.value.key !in old(store.View()) && store.View()[r.value.key] == r.value
    {
      if request.fees.max * request.call.gas > balance {
        return Err(BalanceTooLow);
      }
      if request.call.to == ZERO_ADDRESS {
        return Err(ZeroDestination);
      }
      var nonce := PollNonce(request.signer, pendingCount);
      if !Signable(config.kind, request.fees) {
        return Err(InvalidFees);
      }
      var row := FirstRow(config, request, nonce);
      nonces := nonces[request.signer := Nonce(request.signer) + 1];
      var stored := store.PutTx(row, false);
      if stored.Err? {
        return Err(NotStored(stored.error));
      }
      if !broadcastSucceeds {
        return Err(BroadcastFailed);
      }
      return Ok(row);
    }

    method ResolveNewGasPrice(prevFees: Fees, minMaxPriorityFee: nat, minMaxFee: nat)
      returns (newFees: Fees, isMaxGasPriceReached: bool)
      ensures newFees == ResolvedFees(
        config.retryGasPriceFactor, config.maxMaxFeePerGas, prevFees, minMaxPriorityFee, minMaxFee)
      ensures isMaxGasPriceReached == MaxGasPriceReached(
        config.retryGasPriceFactor, config.maxMaxFeePerGas, prevFees, minMaxFee)
      ensures ValidFees(newFees, config.maxMaxFeePerGas)
      ensures forall max: nat :: IsNearest(prevFees.max, config.retryGasPriceFactor, max) ==>
        && IsRaisedAndCut(max, minMaxFee, config.maxMaxFeePerGas, newFees.max)
        && (isMaxGasPriceReached <==> max > config.maxMaxFeePerGas || minMaxFee > config.maxMaxFeePerGas)
      ensures forall priority: nat :: IsNearest(prevFees.priority, config.retryGasPriceFactor, priority) ==>
        IsRaisedAndCut(priority, minMaxPriorityFee, newFees.max, newFees.priority)
    {
      NearestIsRounded(prevFees.max, config.retryGasPriceFactor);
      NearestIsRounded(prevFees.priority, config.retryGasPriceFactor);
      isMaxGasPriceReached := false;
      var newMaxFee := RoundedProduct(prevFees.max, config.retryGasPriceFactor);
      var newMaxPriorityFee := RoundedProduct(prevFees.priority, config.retryGasPriceFactor);
      if newMaxPriorityFee < minMaxPriorityFee {
        newMaxPriorityFee := minMaxPriorityFee;
      }
      if newMaxFee < minMaxFee {
        newMaxFee := minMaxFee;
      }
      if newMaxFee > config.maxMaxFeePerGas {
        isMaxGasPriceReached := true;
        newMaxFee := config.maxMaxFeePerGas;
      }
      if newMaxPriorityFee > newMaxFee {
        newMaxPriorityFee := newMaxFee;
      }
      newFees := Fees(newMaxFee, newMaxPriorityFee);
    }

    /** The row is rewritten before the broadcast, so a failed broadcast leaves the new attempt recorded. */
    method ResendTransaction(tx: StoredTx, block: Block, fees: Fees, reply: Reply) returns (error: Option<SendError>)
      requires store.Valid()
      modifies store
      ensures store.Valid()
      ensures match CheckError(config.kind, tx.call.gas, fees, reply.balance)
              case Some(e) => error == Some(e) && store.View() == old(store.View())
              case None =>
                && store.View() == old(store.View())[tx.key := NextAttempt(config.kind, tx, fees, block)]
                && error == if reply.broadcastSucceeds then None else Some(BroadcastFailed)
      ensures error == Some(BalanceTooLow) <==> fees.max * tx.call.gas > reply.balance
      ensures error == Some(InvalidFees) <==>
        fees.max * tx.call.gas <= reply.balance && config.kind.FeeMarket? && fees.priority > fees.max
      ensures error == None || error == Some(BroadcastFailed) ==>
        && (error.None? <==> reply.broadcastSucceeds)
        && store.View() == old(store.View())[tx.key := tx.(
             fees := if config.kind.FeeMarket? then fees else Fees(fees.max, fees.max),
             attempts := tx.attempts + 1, boostBlock := Some(block))]
      ensures error == Some(BalanceTooLow) || error == Some(InvalidFees) ==> store.View() == old(store.View())
    {
      if fees.max * tx.call.gas > reply.balance {
        return Some(BalanceTooLow);
      }
      if !Signable(config.kind, fees) {
        return Some(InvalidFees);
      }
      var _ := store.PutTx(NextAttempt(config.kind, tx, fees, block), true);
      return if reply.broadcastSucceeds then None else Some(BroadcastFailed);
    }

    /** The boost loop: it stops at the first failed boost and passes over failed rebroadcasts. */
    method ResendAll(round: Round, txs: seq<StoredTx>, fees: Fees, replies: nat -> Reply, ghost before: State)
      returns (r: Result<nat, SendError>, ghost end: State)
      requires store.Valid()
      requires before.rows == store.View() && before.worker == Boosting(round, txs, fees, 0)
      modifies store
      ensures store.Valid() && end.rows == store.View()
      ensures end == LoopEnd(config, before, round, txs, fees, 0, replies)
      ensures r.Ok? ==> r.value == CountUnderpriced(txs, fees)
      ensures r.Err? ==> !r.error.MissingNonceError?
    {
      var boosted := 0;
      end := before;
      for i := 0 to |txs|
        invariant store.Valid() && end.rows == store.View()
        invariant end.worker == Boosting(round, txs, fees, i)
        invariant LoopEnd(config, end, round, txs, fees, i, replies)
          == LoopEnd(config, before, round, txs, fees, 0, replies)
        invariant boosted == CountUnderpriced(txs[..i], fees)
      {
        assert txs[..i + 1][..i] == txs[..i];
        end := TurnEnd(config, end, round, txs, fees, i, replies(i));
        var error := ResendTransaction(txs[i], round.block, FeesUsed(txs[i], fees), replies(i));
        if Underpriced(txs[i], fees) {
          if error.Some? {
            return Err(error.value), end;
          }
          boosted := boosted + 1;
        }
      }
      assert txs[..|txs|] == txs;
      end := end.(worker := WorkerIdle);
      return Ok(boosted), end;
    }

    /**
     One boost round. The store ends as the protocol state RoundEnd has it, for the rows `txs` found pending;
     it throws for a missing nonce exactly if the protocol gets stuck on one.
     */
    method BoostUnderpricedPendingTransactions(
      signer: Address, block: Block, minMaxPriorityFee: nat, minedCount: nat, baseFee: Option<nat>,
      replies: nat -> Reply, ghost start: State)
      returns (r: Result<nat, SendError>, ghost txs: seq<StoredTx>, ghost end: State)
      requires store.Valid() && start.rows == store.View()
      modifies store
      ensures store.Valid() && end.rows == store.View()
      ensures IsNonceRange(old(store.View()), signer, minedCount, None, txs)
      ensures end == RoundEnd(
        config, start, Round(signer, block, minedCount), txs, minMaxPriorityFee, baseFee, replies)
      ensures r.Err? && r.error.MissingNonceError? <==> txs != [] && txs[0].key.nonce != minedCount
      ensures txs == [] || !IsDue(config, txs[0], minedCount, block) || baseFee.None? ==>
        && store.View() == old(store.View())
        && r == if txs == [] then Ok(0)
                else if txs[0].key.nonce != minedCount then Err(MissingNonceError(minedCount))
                else if !IsDue(config, txs[0], minedCount, block) then Ok(0) else Err(GasFeesUnavailable)
      ensures txs != [] && IsDue(config, txs[0], minedCount, block) && baseFee.Some? && r.Ok? ==>
        r.value == CountUnderpriced(txs, NewFees(config, txs[0], minMaxPriorityFee, baseFee.value))
    {
      var round := Round(signer, block, minedCount);
      var pendingTxs := store.GetTxsInNonceRange(signer, minedCount, None);
      txs := pendingTxs;
      end := Opened(config, start, round, txs);
      if pendingTxs == [] {
        return Ok(0), txs, end;
      }
      // the rows start at the mined count, so the source's test for an older one never succeeds
      var oldest := pendingTxs[0];
      if minedCount != oldest.key.nonce {
        return Err(MissingNonceError(minedCount)), txs, end;
      }
      if block.timestamp - oldest.LastSent() < config.pendingTransactionTimeoutSeconds {
        return Ok(0), txs, end;
      }
      if baseFee.None? {
        end := end.(worker := WorkerIdle);
        return Err(GasFeesUnavailable), txs, end;
      }
      var fees, _ := ResolveNewGasPrice(oldest.fees, minMaxPriorityFee, baseFee.value);
      end := end.(worker := Boosting(round, txs, fees, 0));
      r, end := ResendAll(round, pendingTxs, fees, replies, end);
    }

    /** Asks for the receipt of one transaction and marks its row if that tells something new. */
    method FillMinedBlockDetails(
      transaction: StoredTx, currentBlock: int, pruneAfterBlocks: int, receipts: TxId -> Option<Block>)
      requires store.Valid() && transaction.key in store.View() && transaction.attempts > 0
      modifies store
      ensures store.Valid()
      ensures var marked := Marked(transaction, currentBlock, pruneAfterBlocks, receipts);
        store.View() == if marked == transaction then old(store.View()) else old(store.View())[transaction.key := marked]
    {
      if ShouldRecheck(transaction, currentBlock, pruneAfterBlocks) {
        var receipt := receipts(transaction.Id());
        if receipt.Some?
           && (transaction.minedBlock.Some? ==> receipt.value.number != transaction.minedBlock.value.number) {
          var _ := store.PutTx(WithMinedBlock(transaction, receipt.value), true);
        }
      }
    }

    /** Marks every row whose receipt tells something new, and changes no other. */
    method FillMinedBlockDetailsForTransactions(
      currentBlock: int, pruneAfterBlocks: int, receipts: TxId -> Option<Block>)
      requires store.Valid()
      modifies store
      ensures store.Valid()
      ensures store.View() == MarkedRows(old(store.View()), currentBlock, pruneAfterBlocks, receipts)
      ensures store.View().Keys == old(store.View()).Keys
      ensures forall k :: k in store.View() ==>
        var tx := old(store.View())[k]; var receipt := receipts(TxId(tx.key, tx.call, tx.fees));
        store.View()[k] ==
          if receipt.Some? && (tx.minedBlock == None
                               || (tx.minedBlock.value.number + pruneAfterBlocks <= currentBlock
                                   && tx.minedBlock.value.number != receipt.value.number))
          then tx.(minedBlock := receipt) else tx
    {
      ghost var rows := store.View();
      var sortedTxs := store.GetAll();
      AllRowsListed(store, sortedTxs);
      NothingMarked(rows, currentBlock, pruneAfterBlocks, receipts);
      for i := 0 to |sortedTxs|
        invariant store.Valid() && store.View().Keys == rows.Keys
        invariant MarkedSoFar(rows, store.View(), sortedTxs[..i], currentBlock, pruneAfterBlocks, receipts)
      {
        ghost var before := store.View();
        assert IsRow(rows, sortedTxs[i]);
        FillMinedBlockDetails(sortedTxs[i], currentBlock, pruneAfterBlocks, receipts);
        MarkedOneMore(rows, before, store.View(), sortedTxs, i, currentBlock, pruneAfterBlocks, receipts);
      }
      assert sortedTxs[..|sortedTxs|] == sortedTxs;
      AllMarked(rows, store.View(), sortedTxs, currentBlock, pruneAfterBlocks, receipts);
    }

    method RemoveArchivedTransactions(current: Block, pruneAfterBlocks: int, pruneAfterSeconds: int)
      requires store.Valid()
      modifies store
      ensures store.Valid()
      ensures store.View() == RemoveArchived(
        old(store.View()), current.number - pruneAfterBlocks, current.timestamp - pruneAfterSeconds)
    {
      store.RemoveArchivedTransactions(current.number - pruneAfterBlocks, current.timestamp - pruneAfterSeconds);
    }
  }

  predicate IsRow(rows: Rows, tx: StoredTx) {
    tx.key in rows && rows[tx.key] == tx && tx.attempts > 0
  }

  ghost predicate ListsAll(rows: Rows, txs: seq<StoredTx>) {
    (forall i :: 0 <= i < |txs| ==> IsRow(rows, txs[i])) && rows.Keys <= KeysOf(txs)
  }

  lemma AllRowsListed(store: TxStoreManager, txs: seq<StoredTx>)
    requires store.Valid() && multiset(txs) == multiset(store.documents)
    ensures ListsAll(store.View(), txs)
  {
    forall i | 0 <= i < |txs|
      ensures IsRow(store.View(), txs[i])
    {
      assert txs[i] in multiset(store.documents);
      var j :| 0 <= j < |store.documents| && store.documents[j] == txs[i];
    }
    forall k | k in store.View()
      ensures k in KeysOf(txs)
    {
      var j := PositionOf(store.documents, k);
      assert store.documents[j] in multiset(txs);
      var i :| 0 <= i < |txs| && txs[i] == store.documents[j];
    }
  }

  /** The rows listed in `done` are marked, the others are as they were. */
  ghost predicate MarkedSoFar(
    rows: Rows, now: Rows, done: seq<StoredTx>, currentBlock: int, pruneAfterBlocks: int,
    receipts: TxId -> Option<Block>)
  {
    forall k :: k in rows && k in now ==>
      now[k] == if k in KeysOf(done) then Marked(rows[k], currentBlock, pruneAfterBlocks, receipts) else rows[k]
  }

  lemma MarkedOneMore(
    rows: Rows, before: Rows, after: Rows, txs: seq<StoredTx>, i: nat, currentBlock: int, pruneAfterBlocks: int,
    receipts: TxId -> Option<Block>)
    requires i < |txs| && IsRow(rows, txs[i]) && before.Keys == rows.Keys
    requires MarkedSoFar(rows, before, txs[..i], currentBlock, pruneAfterBlocks, receipts)
    requires var tx := txs[i]; var marked := Marked(tx, currentBlock, pruneAfterBlocks, receipts);
      after == if marked == tx then before else before[tx.key := marked]
    ensures after.Keys == rows.Keys
    ensures MarkedSoFar(rows, after, txs[..i + 1], currentBlock, pruneAfterBlocks, receipts)
  {
    assert txs[..i + 1] == txs[..i] + [txs[i]];
    assert KeysOf(txs[..i + 1]) == KeysOf(txs[..i]) + {txs[i].key};
  }

  lemma AllMarked(
    rows: Rows, now: Rows, txs: seq<StoredTx>, currentBlock: int, pruneAfterBlocks: int,
    receipts: TxId -> Option<Block>)
    requires now.Keys == rows.Keys && MarkedSoFar(rows, now, txs, currentBlock, pruneAfterBlocks, receipts)
    requires ListsAll(rows, txs)
    ensures now == MarkedRows(rows, currentBlock, pruneAfterBlocks, receipts)
  {
    assert forall k :: k in rows ==> k in now;
  }

  lemma NothingMarked(rows: Rows, currentBlock: int, pruneAfterBlocks: int, receipts: TxId -> Option<Block>)
    ensures MarkedSoFar(rows, rows, [], currentBlock, pruneAfterBlocks, receipts)
  {
  }
}
