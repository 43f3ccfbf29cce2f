/** What boost rounds achieve in every interleaving: fees, spacing of resends, and what a resend leaves alone. */
module BoostRounds {
  import opened Wrappers
  import opened StoredTransactions
  import opened TxStore
  import opened GasFees
  import opened NoncePipeline
  import opened NonceSafety

  // ---------- What a step can do to the rows ----------

  ghost predicate KeepsRows(s: State, s': State) {
    forall k :: k in s.rows ==> k in s'.rows && s'.rows[k] == s.rows[k]
  }

  /** Rows that appear are first attempts under nonces never used before. */
  ghost predicate NewRowsAreFresh(c: Config, s: State, s': State) {
    forall k :: k in s'.rows && k !in s.rows ==>
      s'.rows[k].boostBlock.None? && s'.rows[k].attempts == 1 && BookOf(c, s, k.signer).Next() <= k.nonce
  }

  /** The parts of the state that belong to the worker. */
  predicate WorkerUntouched(s: State, s': State) {
    && s'.worker == s.worker && s'.workerTime == s.workerTime && s'.resends == s.resends && s'.skipped == s.skipped
    && s'.uneven == s.uneven
  }

  lemma OtherProcessesKeepRows(c: Config, s: State, step: Step, s': State)
    requires Inv(c, s) && Next(c, s, step, s') && !step.WorkStep?
    ensures KeepsRows(s, s') && NewRowsAreFresh(c, s, s') && WorkerUntouched(s, s')
    ensures forall a :: s.ChainOf(a).mined <= s'.ChainOf(a).mined
  {
    if step.SendStep? {
      if step.send == Insert {
        InsertAddsFreshRow(c, s, step.p, s');
      } else {
        QuietSendKeepsRows(c, s, step.p, step.send, s');
      }
    }
  }

  lemma InsertAddsFreshRow(c: Config, s: State, p: nat, s': State)
    requires Inv(c, s) && SenderNext(c, s, p, Insert, s')
    ensures KeepsRows(s, s') && NewRowsAreFresh(c, s, s') && WorkerUntouched(s, s') && s'.chain == s.chain
  {
    InsertNeverCollides(c, s, p);
    assert SenderInv(c, s, s.server.Sender(p));
  }

  lemma QuietSendKeepsRows(c: Config, s: State, p: nat, step: SendStep, s': State)
    requires SenderNext(c, s, p, step, s') && step != Insert
    ensures s'.rows == s.rows && WorkerUntouched(s, s') && s'.chain == s.chain
  {
  }

  // ---------- Fees ----------

  /** The hypothesis on the oldest pending transaction under which a boost cannot lower it. */
  predicate CanOnlyRise(c: Config, oldest: StoredTx) {
    c.retryGasPriceFactor.num >= c.retryGasPriceFactor.den && ValidFees(oldest.fees, c.maxMaxFeePerGas)
  }

  ghost predicate ResolvedFrom(c: Config, oldest: StoredTx, fees: Fees) {
    exists minPriority: nat, baseFee: nat :: fees == NewFees(c, oldest, minPriority, baseFee)
  }

  /** A row that records one price for both fees, as all rows of a legacy server do. */
  predicate RecordsOnePrice(tx: StoredTx) {
    tx.fees.priority == tx.fees.max
  }

  /** What a row of the snapshot has become once the round has dealt with it. */
  predicate HasReached(c: Config, before: StoredTx, after: StoredTx, fees: Fees) {
    && after.fees.AtLeast(fees)
    && (c.kind.Legacy? && RecordsOnePrice(before) ==> RecordsOnePrice(after))
  }

  /** The first `done` rows of a round have reached its fees; the oldest has exactly them, or their legacy record. */
  ghost predicate Raised(c: Config, rows: Rows, txs: seq<StoredTx>, fees: Fees, done: nat)
    requires done <= |txs|
  {
    && ValidFees(fees, c.maxMaxFeePerGas)
    && (txs != [] ==> ResolvedFrom(c, txs[0], fees))
    && (txs != [] && CanOnlyRise(c, txs[0]) ==> fees.AtLeast(txs[0].fees))
    && (forall j :: 0 <= j < done ==> txs[j].key in rows && HasReached(c, txs[j], rows[txs[j].key], fees))
    && (done > 0 && CanOnlyRise(c, txs[0]) ==>
          rows[txs[0].key].fees == fees || rows[txs[0].key].fees == RecordedFees(c.kind, fees))
  }

  ghost predicate FeesInv(c: Config, s: State) {
    match s.worker
    case Boosting(_, txs, fees, i) => i <= |txs| && Raised(c, s.rows, txs, fees, i)
    case Resending(_, txs, fees, i) => i < |txs| && Raised(c, s.rows, txs, fees, i + 1)
    case _ => true
  }

  /** Both branches of the boost loop leave a row at or above the round's fees. */
  lemma AttemptReachesFees(c: Config, tx: StoredTx, fees: Fees, block: Block)
    requires fees.priority <= fees.max
    ensures HasReached(c, tx, Attempt(c, tx, fees, block), fees)
    ensures fees.AtLeast(tx.fees) ==> Attempt(c, tx, fees, block).fees == RecordedFees(c.kind, fees)
  {
  }

  /** A row that the round passes over has reached its fees already, or it would have been boosted. */
  lemma PassedOverHasReached(c: Config, tx: StoredTx, fees: Fees)
    requires !Underpriced(tx, fees)
    ensures HasReached(c, tx, tx, fees) && (fees.AtLeast(tx.fees) ==> tx.fees == fees)
  {
  }

  lemma ResolvingRaises(c: Config, rows: Rows, txs: seq<StoredTx>, minPriority: nat, baseFee: nat)
    requires txs != []
    ensures Raised(c, rows, txs, NewFees(c, txs[0], minPriority, baseFee), 0)
  {
    var oldest := txs[0];
    assert ResolvedFrom(c, oldest, NewFees(c, oldest, minPriority, baseFee));
    ResolvedFeesAreValid(c.retryGasPriceFactor, c.maxMaxFeePerGas, oldest.fees, minPriority, baseFee);
    if CanOnlyRise(c, oldest) {
      ResolvedFeesNeverDrop(c.retryGasPriceFactor, c.maxMaxFeePerGas, oldest.fees, minPriority, baseFee);
    }
  }

  lemma RaisedByOne(c: Config, rows: Rows, round: Round, txs: seq<StoredTx>, fees: Fees, i: nat)
    requires i < |txs| && Snapshot(rows, round, txs, i) && Raised(c, rows, txs, fees, i)
    ensures var row := Attempt(c, txs[i], fees, round.block);
      Raised(c, rows[row.key := row], txs, fees, i + 1)
  {
    AttemptReachesFees(c, txs[i], fees, round.block);
  }

  lemma RaisedByPassingOver(c: Config, rows: Rows, round: Round, txs: seq<StoredTx>, fees: Fees, i: nat)
    requires i < |txs| && Snapshot(rows, round, txs, i) && Raised(c, rows, txs, fees, i) && !Underpriced(txs[i], fees)
    ensures Raised(c, rows, txs, fees, i + 1)
  {
    PassedOverHasReached(c, txs[i], fees);
  }

  lemma StoringKeepsFeesInv(c: Config, s: State, s': State)
    requires WorkerInv(c, s) && FeesInv(c, s) && RoundNext(c, s, StoreAttempt, s')
    ensures FeesInv(c, s')
  {
    StoreAttemptWrites(c, s, s');
    RaisedByOne(c, s.rows, s.worker.round, s.worker.txs, s.worker.fees, s.worker.i);
  }

  lemma FailedCheckKeepsFeesInv(c: Config, s: State, s': State)
    requires WorkerInv(c, s) && FeesInv(c, s) && RoundNext(c, s, CheckFails, s')
    ensures FeesInv(c, s')
  {
    if !Underpriced(s.worker.txs[s.worker.i], s.worker.fees) {
      RaisedByPassingOver(c, s.rows, s.worker.round, s.worker.txs, s.worker.fees, s.worker.i);
    }
  }

  lemma RoundKeepsFeesInv(c: Config, s: State, step: WorkStep, s': State)
    requires WorkerInv(c, s) && FeesInv(c, s) && RoundNext(c, s, step, s')
    ensures FeesInv(c, s')
  {
    match step {
      case GasFeesArrive(minPriority, baseFee) => ResolvingRaises(c, s.rows, s.worker.txs, minPriority, baseFee);
      case StoreAttempt => StoringKeepsFeesInv(c, s, s');
      case CheckFails => FailedCheckKeepsFeesInv(c, s, s');
      case _ =>
    }
  }

  lemma NextKeepsFeesInv(c: Config, s: State, step: Step, s': State)
    requires Inv(c, s) && FeesInv(c, s) && Next(c, s, step, s')
    ensures FeesInv(c, s')
  {
    if !step.WorkStep? {
      OtherProcessesKeepRows(c, s, step, s');
    } else if !IsMarkingStep(step.work) {
      RoundKeepsFeesInv(c, s, step.work, s');
    }
  }

  /** At every point of a round the rows dealt with have reached its fees, and the others are as it loaded them. */
  lemma {:induction false} RunKeepsFeesInv(c: Config, states: seq<State>, steps: seq<Step>, i: nat)
    requires IsRun(c, states, steps) && i < |states|
    ensures FeesInv(c, states[i]) && WorkerInv(c, states[i])
  {
    RunKeepsInv(c, states, steps, i);
    if i == 0 {
      NoRoundAtStart(c, states[0]);
    } else {
      RunKeepsFeesInv(c, states, steps, i - 1);
      StepKeepsFeesInv(c, states, steps, i - 1);
    }
  }

  lemma NoRoundAtStart(c: Config, s: State)
    requires Init(c, s)
    ensures FeesInv(c, s)
  {
  }

  lemma StepKeepsFeesInv(c: Config, states: seq<State>, steps: seq<Step>, i: nat)
    requires IsRun(c, states, steps) && i < |steps| && FeesInv(c, states[i])
    ensures FeesInv(c, states[i + 1])
  {
    RunKeepsInv(c, states, steps, i);
    assert StepAt(c, states, steps, i);
    NextKeepsFeesInv(c, states[i], steps[i], states[i + 1]);
  }

  /**
   A completed boost round, whatever else ran meanwhile: every transaction that was pending when it began has
   both fees at or above the round's new pair; if the oldest was valid, its own fees have not dropped, and no
   later one is cheaper than it. (On a legacy server that takes rows with one price, which are all it writes.)
   */
  lemma CompletedRoundRaisesFees(c: Config, states: seq<State>, steps: seq<Step>, i: nat)
    requires IsRun(c, states, steps) && i < |states|
    requires states[i].worker.Boosting? && states[i].worker.i == |states[i].worker.txs|
    ensures var w, rows := states[i].worker, states[i].rows;
      && w.txs != [] && ResolvedFrom(c, w.txs[0], w.fees)
      && (forall j :: 0 <= j < |w.txs| ==> w.txs[j].key in rows && rows[w.txs[j].key].fees.AtLeast(w.fees))
      && (CanOnlyRise(c, w.txs[0]) ==>
            var oldest := rows[w.txs[0].key].fees;
            && oldest.AtLeast(w.txs[0].fees)
            && forall j :: 0 <= j < |w.txs| ==>
                 oldest.max <= rows[w.txs[j].key].fees.max
                 && (c.kind.FeeMarket? || RecordsOnePrice(w.txs[j]) ==>
                       oldest.priority <= rows[w.txs[j].key].fees.priority))
  {
    RunKeepsFeesInv(c, states, steps, i);
    var w, rows := states[i].worker, states[i].rows;
    forall j | 0 <= j < |w.txs|
      ensures w.txs[j].key in rows && HasReached(c, w.txs[j], rows[w.txs[j].key], w.fees)
    {
    }
  }
}
