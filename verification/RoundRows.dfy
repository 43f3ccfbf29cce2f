/** What one uninterrupted boost round leaves in the store, row by row, whatever fails in it. */
module RoundRows {
  import opened Wrappers
  import opened StoredTransactions
  import opened TxStore
  import opened GasFees
  import opened NoncePipeline
  import opened TransactionManager
  import opened SpacingLimits

  /** The loop leaves a row alone that it does not list. */
  lemma {:induction false} LoopKeepsOthers(
    c: Config, s: State, round: Round, txs: seq<StoredTx>, fees: Fees, i: nat, replies: nat -> Reply, k: Key)
    requires i <= |txs| && forall j :: i <= j < |txs| ==> txs[j].key != k
    ensures var end := LoopEnd(c, s, round, txs, fees, i, replies);
      (k in end.rows <==> k in s.rows) && (k in s.rows ==> end.rows[k] == s.rows[k])
    decreases |txs| - i
  {
    if i < |txs| {
      var t := TurnEnd(c, s, round, txs, fees, i, replies(i));
      if !t.worker.WorkerIdle? {
        LoopKeepsOthers(c, t, round, txs, fees, i + 1, replies, k);
      }
    }
  }

  /** A row that is written gets the new pair if one of its fees is below, and one more attempt; the others stay. */
  lemma {:induction false} LoopWritesExactly(
    c: Config, s: State, round: Round, txs: seq<StoredTx>, fees: Fees, i: nat, replies: nat -> Reply, j: nat)
    requires i <= j < |txs| && DistinctKeys(txs) && txs[j].key in s.rows && s.rows[txs[j].key] == txs[j]
    ensures var end := LoopEnd(c, s, round, txs, fees, i, replies);
      && txs[j].key in end.rows
      && end.rows[txs[j].key] ==
         if IsWritten(c, txs, fees, replies, i, j) then Attempt(c, txs[j], fees, round.block) else txs[j]
    decreases |txs| - i
  {
    var t := TurnEnd(c, s, round, txs, fees, i, replies(i));
    if j == i {
      if !t.worker.WorkerIdle? {
        LoopKeepsOthers(c, t, round, txs, fees, i + 1, replies, txs[j].key);
      }
    } else if !t.worker.WorkerIdle? {
      LoopWritesExactly(c, t, round, txs, fees, i + 1, replies, j);
    }
  }

  /** What a resend makes of a row: all of it. */
  lemma AttemptExactly(c: Config, tx: StoredTx, fees: Fees, block: Block)
    ensures var used := if tx.fees.max < fees.max || tx.fees.priority < fees.priority then fees else tx.fees;
      Attempt(c, tx, fees, block) == tx.(
        fees := if c.kind.FeeMarket? then used else Fees(used.max, used.max),
        attempts := tx.attempts + 1, boostBlock := Some(block))
  {
  }

  /** A row is written if the balance covers it and its fees can be signed, and no boost before it failed. */
  lemma WrittenIf(c: Config, tx: StoredTx, fees: Fees, reply: Reply)
    ensures var used := if tx.fees.max < fees.max || tx.fees.priority < fees.priority then fees else tx.fees;
      && (PassesCheck(c, tx, fees, reply) <==>
            used.max * tx.call.gas <= reply.balance && (c.kind.FeeMarket? ==> used.priority <= used.max))
      && (Stops(c, tx, fees, reply) <==>
            && (tx.fees.max < fees.max || tx.fees.priority < fees.priority)
            && !(PassesCheck(c, tx, fees, reply) && reply.broadcastSucceeds))
  {
  }

  /**
   The store after a whole round: the rows of the range that the loop gets to and that pass their check are
   resent, with the fees resolved from the oldest one; every other row is as it was.
   */
  lemma RoundWritesExactly(
    c: Config, s: State, round: Round, txs: seq<StoredTx>, minPriority: nat, baseFee: nat, replies: nat -> Reply, k: Key)
    requires IsNonceRange(s.rows, round.signer, round.mined, None, txs) && k in s.rows
    requires txs != [] && IsDue(c, txs[0], round.mined, round.block) && WellKeyed(s.rows)
    ensures var end := RoundEnd(c, s, round, txs, minPriority, Some(baseFee), replies);
      var fees := NewFees(c, txs[0], minPriority, baseFee);
      && k in end.rows
      && (forall j: nat :: j < |txs| && txs[j].key == k ==>
            end.rows[k] ==
              if IsWritten(c, txs, fees, replies, 0, j) then Attempt(c, txs[j], fees, round.block) else txs[j])
      && (s.rows[k] !in txs ==> end.rows[k] == s.rows[k])
  {
    var fees := NewFees(c, txs[0], minPriority, baseFee);
    var looping := Opened(c, s, round, txs).(worker := Boosting(round, txs, fees, 0));
    KeysAreDistinct(s.rows, round.signer, round.mined, txs);
    if j: nat :| j < |txs| && txs[j].key == k {
      LoopWritesExactly(c, looping, round, txs, fees, 0, replies, j);
      assert txs[j] == s.rows[k];
      forall i: nat | i < |txs| && txs[i].key == k
        ensures i == j
      {
        OneOfEachKey(txs, i, j);
      }
    } else {
      LoopKeepsOthers(c, looping, round, txs, fees, 0, replies, k);
    }
  }

  lemma OneOfEachKey(txs: seq<StoredTx>, i: nat, j: nat)
    requires DistinctKeys(txs) && i < |txs| && j < |txs|
    ensures txs[i].key == txs[j].key ==> i == j
  {
  }

  lemma KeysAreDistinct(rows: Rows, a: Address, from: nat, txs: seq<StoredTx>)
    requires IsNonceRange(rows, a, from, None, txs)
    ensures DistinctKeys(txs)
  {
  }
}
