/**
 Exactly when the next round breaks the spacing of resends: for every reachable state in which the worker is idle,
 and whatever rounds have skipped before.
 */
module SpacingLimits {
  import opened Sequences
  import opened Wrappers
  import opened StoredTransactions
  import opened TxStore
  import opened GasFees
  import opened NoncePipeline
  import opened NonceSafety
  import opened ResendSpacing
  import opened Paths
  import opened TransactionManager

  lemma ReachableKeepsAll(c: Config, s: State)
    requires Reachable(c, s)
    ensures Inv(c, s) && SpacingInv(c, s)
  {
    var start :| Init(c, start) && Reaches(c, start, s);
    var states, steps := RunTo(c, start, s);
    RunKeepsInv(c, states, steps, |steps|);
    RunKeepsSpacing(c, states, steps, |steps|);
  }

  // ---------- The log of a round ----------

  function Entries(txs: seq<StoredTx>, time: int): seq<Resend> {
    if txs == [] then [] else [Resend(txs[0].key, time)] + Entries(txs[1..], time)
  }

  ghost predicate DistinctKeys(txs: seq<StoredTx>) {
    forall i, j :: 0 <= i < j < |txs| ==> txs[i].key != txs[j].key
  }

  /** No entry of the key is later than its last one. */
  ghost predicate LastIsLatest(resends: seq<Resend>, k: Key) {
    forall i :: 0 <= i < |resends| && resends[i].key == k ==>
      LastResent(resends, k).Some? && resends[i].timestamp <= LastResent(resends, k).value
  }

  /** The row was resent in this run, less than the timeout before `time`. */
  predicate ResentJustBefore(c: Config, resends: seq<Resend>, k: Key, time: int) {
    LastResent(resends, k).Some? && time - LastResent(resends, k).value < c.pendingTransactionTimeoutSeconds
  }

  lemma OtherKeyKeepsLatest(resends: seq<Resend>, entry: Resend, k: Key)
    requires LastIsLatest(resends, k) && entry.key != k
    ensures LastIsLatest(resends + [entry], k) && LastResent(resends + [entry], k) == LastResent(resends, k)
  {
    LastAfter(resends, entry, k);
  }

  /** A log extended by one resend for each row stays spaced exactly if no row had been resent just before. */
  lemma {:induction false} LogOfRoundIsSpacedIff(c: Config, resends: seq<Resend>, txs: seq<StoredTx>, time: int, a: Address)
    requires DistinctKeys(txs) && forall j :: 0 <= j < |txs| ==> LastIsLatest(resends, txs[j].key)
    requires forall j :: 0 <= j < |txs| ==> txs[j].key.signer == a
    ensures Spaced(c, resends + Entries(txs, time), a) <==>
      && Spaced(c, resends, a)
      && forall j :: 0 <= j < |txs| ==> !ResentJustBefore(c, resends, txs[j].key, time)
    decreases |txs|
  {
    if txs == [] {
      AppendNothing(resends);
    } else {
      var entry, rest := Resend(txs[0].key, time), txs[1..];
      var next := resends + [entry];
      Regroup(resends, [entry], Entries(rest, time));
      EntryIsSpacedIff(c, resends, entry, a);
      forall j | 0 <= j < |rest|
        ensures LastIsLatest(next, rest[j].key) && LastResent(next, rest[j].key) == LastResent(resends, rest[j].key)
        ensures rest[j] == txs[j + 1]
      {
        OtherKeyKeepsLatest(resends, entry, rest[j].key);
      }
      LogOfRoundIsSpacedIff(c, next, rest, time, a);
      assert txs == [txs[0]] + rest;
    }
  }

  // ---------- The rows a round writes ----------

  /** The check of the balance and the signing let the row pass, so it is written. */
  predicate PassesCheck(c: Config, tx: StoredTx, fees: Fees, reply: Reply) {
    CheckError(c.kind, tx.call.gas, FeesUsed(tx, fees), reply.balance) == None
  }

  /** A boost that fails ends the loop; a failed rebroadcast is only logged. */
  predicate Stops(c: Config, tx: StoredTx, fees: Fees, reply: Reply) {
    Underpriced(tx, fees) && !(PassesCheck(c, tx, fees, reply) && reply.broadcastSucceeds)
  }

  /** The loop gets as far as row `i`, and writes it. */
  ghost predicate IsWritten(c: Config, txs: seq<StoredTx>, fees: Fees, replies: nat -> Reply, from: nat, i: nat) {
    && from <= i < |txs| && PassesCheck(c, txs[i], fees, replies(i))
    && forall j :: from <= j < i ==> !Stops(c, txs[j], fees, replies(j))
  }

  /** The rows the loop writes from turn `i` on. */
  function Written(c: Config, txs: seq<StoredTx>, fees: Fees, i: nat, replies: nat -> Reply): seq<StoredTx>
    requires i <= |txs|
    decreases |txs| - i
  {
    if i == |txs| then []
    else
      (if PassesCheck(c, txs[i], fees, replies(i)) then [txs[i]] else [])
      + (if Stops(c, txs[i], fees, replies(i)) then [] else Written(c, txs, fees, i + 1, replies))
  }

  lemma {:induction false} WrittenExactly(c: Config, txs: seq<StoredTx>, fees: Fees, i: nat, replies: nat -> Reply)
    requires i <= |txs|
    ensures forall tx :: tx in Written(c, txs, fees, i, replies) <==>
      exists j: nat :: IsWritten(c, txs, fees, replies, i, j) && txs[j] == tx
    decreases |txs| - i
  {
    if i < |txs| {
      WrittenExactly(c, txs, fees, i + 1, replies);
      forall j: nat
        ensures IsWritten(c, txs, fees, replies, i, j) <==>
          || (j == i && PassesCheck(c, txs[i], fees, replies(i)))
          || (!Stops(c, txs[i], fees, replies(i)) && IsWritten(c, txs, fees, replies, i + 1, j))
      {
      }
    }
  }

  lemma {:induction false} WrittenAreApart(c: Config, txs: seq<StoredTx>, fees: Fees, i: nat, replies: nat -> Reply)
    requires i <= |txs| && DistinctKeys(txs)
    ensures DistinctKeys(Written(c, txs, fees, i, replies))
    decreases |txs| - i
  {
    if i < |txs| {
      WrittenAreApart(c, txs, fees, i + 1, replies);
      WrittenExactly(c, txs, fees, i + 1, replies);
      var rest := Written(c, txs, fees, i + 1, replies);
      forall k | 0 <= k < |rest|
        ensures rest[k].key != txs[i].key
      {
        assert rest[k] in rest;
      }
    }
  }

  lemma {:induction false} LoopLogsWritten(
    c: Config, s: State, round: Round, txs: seq<StoredTx>, fees: Fees, i: nat, replies: nat -> Reply)
    requires i <= |txs|
    ensures LoopEnd(c, s, round, txs, fees, i, replies).resends
         == s.resends + Entries(Written(c, txs, fees, i, replies), round.block.timestamp)
    decreases |txs| - i
  {
    var time := round.block.timestamp;
    if i == |txs| {
      AppendNothing(s.resends);
    } else {
      var t := TurnEnd(c, s, round, txs, fees, i, replies(i));
      TurnLogs(c, s, round, txs, fees, i, replies(i));
      EntriesOfTurn(c, txs, fees, i, replies, time);
      if !Stops(c, txs[i], fees, replies(i)) {
        LoopLogsWritten(c, t, round, txs, fees, i + 1, replies);
        Regroup(s.resends, TurnEntry(c, txs[i], fees, replies(i), time), Entries(Written(c, txs, fees, i + 1, replies), time));
      }
    }
  }

  /** What one turn adds to the log. */
  function TurnEntry(c: Config, tx: StoredTx, fees: Fees, reply: Reply, time: int): seq<Resend> {
    if PassesCheck(c, tx, fees, reply) then [Resend(tx.key, time)] else []
  }

  lemma TurnLogs(c: Config, s: State, round: Round, txs: seq<StoredTx>, fees: Fees, i: nat, reply: Reply)
    requires i < |txs|
    ensures var t := TurnEnd(c, s, round, txs, fees, i, reply);
      && t.resends == s.resends + TurnEntry(c, txs[i], fees, reply, round.block.timestamp)
      && (t.worker.WorkerIdle? <==> Stops(c, txs[i], fees, reply))
  {
  }

  lemma EntriesOfTurn(c: Config, txs: seq<StoredTx>, fees: Fees, i: nat, replies: nat -> Reply, time: int)
    requires i < |txs|
    ensures Entries(Written(c, txs, fees, i, replies), time)
         == TurnEntry(c, txs[i], fees, replies(i), time)
            + (if Stops(c, txs[i], fees, replies(i)) then []
               else Entries(Written(c, txs, fees, i + 1, replies), time))
  {
    var written := Written(c, txs, fees, i, replies);
    if !PassesCheck(c, txs[i], fees, replies(i)) {
      assert written == if Stops(c, txs[i], fees, replies(i)) then [] else Written(c, txs, fees, i + 1, replies);
    } else {
      assert written[0] == txs[i];
      assert written[1..] == if Stops(c, txs[i], fees, replies(i)) then [] else Written(c, txs, fees, i + 1, replies);
    }
  }

  // ---------- The next round ----------

  /** The row was resent in this run, less than the timeout before `time`. */
  predicate ResentAndStampedAfter(c: Config, s: State, tx: StoredTx, time: int) {
    && LastResent(s.resends, tx.key).Some? && tx.boostBlock.Some?
    && time < tx.boostBlock.value.timestamp + c.pendingTransactionTimeoutSeconds
  }

  /**
   The round at `time` goes ahead, because the oldest pending row is due, and writes a row that was resent less
   than the timeout ago. In terms of stamps: oldest + timeout <= time < other + timeout.
   */
  ghost predicate TooSoon(c: Config, s: State, txs: seq<StoredTx>, fees: Fees, replies: nat -> Reply, time: int) {
    && txs != [] && txs[0].LastSent() + c.pendingTransactionTimeoutSeconds <= time
    && exists j: nat :: IsWritten(c, txs, fees, replies, 0, j) && ResentAndStampedAfter(c, s, txs[j], time)
  }

  lemma PendingRowsInLog(c: Config, s: State, a: Address, txs: seq<StoredTx>)
    requires Inv(c, s) && LogInv(c, s) && IsNonceRange(s.rows, a, s.ChainOf(a).mined, None, txs)
    ensures DistinctKeys(txs)
    ensures forall j :: 0 <= j < |txs| ==> txs[j].key.signer == a && LastIsLatest(s.resends, txs[j].key)
    ensures forall j :: 0 <= j < |txs| ==> BearsLastStamp(s.resends, txs[j].key, txs[j])
  {
    forall j | 0 <= j < |txs|
      ensures txs[j].key.signer == a && LastIsLatest(s.resends, txs[j].key)
      ensures BearsLastStamp(s.resends, txs[j].key, txs[j])
    {
      var k := txs[j].key;
      assert InRange(txs[j], a, s.ChainOf(a).mined, None) && s.rows[k] == txs[j];
      assert BearsLastStamp(s.resends, k, s.rows[k]);
      LastResentIsIn(s.resends, k);
      forall i | 0 <= i < |s.resends| && s.resends[i].key == k
        ensures LastResent(s.resends, k).Some? && s.resends[i].timestamp <= LastResent(s.resends, k).value
      {
        assert Recorded(c, s, s.resends[i]);
      }
    }
  }

  /** The oldest pending row stands at the mined count, so the round does not stop there. */
  lemma OldestIsAtMinedCount(c: Config, s: State, a: Address, txs: seq<StoredTx>)
    requires Inv(c, s) && IsNonceRange(s.rows, a, s.ChainOf(a).mined, None, txs) && txs != []
    ensures txs[0].key.nonce == s.ChainOf(a).mined
  {
    var mined, next := s.ChainOf(a).mined, BookOf(c, s, a).Next();
    assert AccountInv(c, s, a);
    forall j | 0 <= j < |txs|
      ensures txs[j].key.nonce < next
    {
      assert InRange(txs[j], a, mined, None) && s.rows[txs[j].key] == txs[j];
      assert RowInv(BookOf(c, s, a), s.rows[txs[j].key]);
    }
    RangeIsConsecutive(s.rows, a, mined, None, next, txs);
  }

  /**
   The next round breaks the spacing of its signer's resends if and only if it comes too soon. The round is any
   one, whatever fails in it, that learns the network fees; the state is any reachable one with an idle worker.
   */
  lemma NextRoundBreaksSpacingIff(
    c: Config, s: State, round: Round, txs: seq<StoredTx>, minPriority: nat, baseFee: nat, replies: nat -> Reply)
    requires Reachable(c, s) && s.worker == WorkerIdle && s.workerTime <= round.block.timestamp
    requires round.mined == s.ChainOf(round.signer).mined
    requires IsNonceRange(s.rows, round.signer, round.mined, None, txs)
    ensures var end := RoundEnd(c, s, round, txs, minPriority, Some(baseFee), replies);
      && Reaches(c, s, end)
      && (Spaced(c, end.resends, round.signer) <==>
            && Spaced(c, s.resends, round.signer)
            && !(txs != []
                 && TooSoon(c, s, txs, NewFees(c, txs[0], minPriority, baseFee), replies, round.block.timestamp)))
  {
    ReachableKeepsAll(c, s);
    RoundIsAPath(c, s, round, txs, minPriority, Some(baseFee), replies);
    if txs != [] {
      OldestIsAtMinedCount(c, s, round.signer, txs);
      if txs[0].LastSent() + c.pendingTransactionTimeoutSeconds <= round.block.timestamp {
        DueRoundBreaksSpacingIff(c, s, round, txs, minPriority, baseFee, replies);
      }
    }
  }

  lemma DueRoundBreaksSpacingIff(
    c: Config, s: State, round: Round, txs: seq<StoredTx>, minPriority: nat, baseFee: nat, replies: nat -> Reply)
    requires Inv(c, s) && LogInv(c, s) && round.mined == s.ChainOf(round.signer).mined
    requires IsNonceRange(s.rows, round.signer, round.mined, None, txs)
    requires txs != [] && txs[0].key.nonce == round.mined
    requires txs[0].LastSent() + c.pendingTransactionTimeoutSeconds <= round.block.timestamp
    ensures Spaced(c, RoundEnd(c, s, round, txs, minPriority, Some(baseFee), replies).resends, round.signer) <==>
      && Spaced(c, s.resends, round.signer)
      && !TooSoon(c, s, txs, NewFees(c, txs[0], minPriority, baseFee), replies, round.block.timestamp)
  {
    var time, fees := round.block.timestamp, NewFees(c, txs[0], minPriority, baseFee);
    var looping := Opened(c, s, round, txs).(worker := Boosting(round, txs, fees, 0));
    LoopLogsWritten(c, looping, round, txs, fees, 0, replies);
    PendingRowsInLog(c, s, round.signer, txs);
    WrittenRowsAreSpacedIff(c, s, round.signer, txs, fees, replies, time);
  }

  lemma WrittenRowsAreSpacedIff(
    c: Config, s: State, a: Address, txs: seq<StoredTx>, fees: Fees, replies: nat -> Reply, time: int)
    requires DistinctKeys(txs)
    requires forall j :: 0 <= j < |txs| ==> txs[j].key.signer == a && LastIsLatest(s.resends, txs[j].key)
    requires forall j :: 0 <= j < |txs| ==> BearsLastStamp(s.resends, txs[j].key, txs[j])
    ensures Spaced(c, s.resends + Entries(Written(c, txs, fees, 0, replies), time), a) <==>
      && Spaced(c, s.resends, a)
      && !exists j: nat :: IsWritten(c, txs, fees, replies, 0, j) && ResentAndStampedAfter(c, s, txs[j], time)
  {
    var written := Written(c, txs, fees, 0, replies);
    WrittenAreApart(c, txs, fees, 0, replies);
    WrittenExactly(c, txs, fees, 0, replies);
    forall i | 0 <= i < |written|
      ensures exists j: nat :: IsWritten(c, txs, fees, replies, 0, j) && txs[j] == written[i]
    {
      assert written[i] in written;
    }
    LogOfRoundIsSpacedIff(c, s.resends, written, time, a);
    forall j | 0 <= j < |txs|
      ensures ResentJustBefore(c, s.resends, txs[j].key, time) <==> ResentAndStampedAfter(c, s, txs[j], time)
    {
      assert BearsLastStamp(s.resends, txs[j].key, txs[j]);
    }
    if j: nat :| IsWritten(c, txs, fees, replies, 0, j) && ResentAndStampedAfter(c, s, txs[j], time) {
      assert txs[j] in written;
      var i :| 0 <= i < |written| && written[i] == txs[j];
      assert ResentJustBefore(c, s.resends, written[i].key, time);
    }
  }

  // ---------- Whether any next round can break the spacing ----------

  /** For two pending rows: the later one was resent in this run, and its stamp is after the oldest one's last send. */
  predicate StampedAfterOldest(c: Config, s: State, oldest: StoredTx, other: StoredTx) {
    && LastResent(s.resends, other.key).Some? && other.boostBlock.Some?
    && oldest.LastSent() < other.boostBlock.value.timestamp
    && s.workerTime < other.boostBlock.value.timestamp + c.pendingTransactionTimeoutSeconds
  }

  /** The row can be signed with its own fees, or some network fees make a round boost it. */
  predicate CanBeResent(c: Config, tx: StoredTx) {
    Signable(c.kind, tx.fees) || tx.fees.max < c.maxMaxFeePerGas
  }

  /** The next round at this block, with these replies, leaves two resends of the signer too close. */
  ghost predicate BreaksSpacing(
    c: Config, s: State, a: Address, txs: seq<StoredTx>, block: Block, minPriority: nat, baseFee: nat,
    replies: nat -> Reply)
  {
    var round := Round(a, block, s.ChainOf(a).mined);
    && s.workerTime <= block.timestamp
    && !Spaced(c, RoundEnd(c, s, round, txs, minPriority, Some(baseFee), replies).resends, a)
  }

  ghost predicate SomeRoundBreaksSpacing(c: Config, s: State, a: Address, txs: seq<StoredTx>) {
    exists block, minPriority: nat, baseFee: nat, replies ::
      BreaksSpacing(c, s, a, txs, block, minPriority, baseFee, replies)
  }

  ghost predicate SomeStampIsAfterOldest(c: Config, s: State, txs: seq<StoredTx>) {
    exists j :: 0 <= j < |txs| && StampedAfterOldest(c, s, txs[0], txs[j]) && CanBeResent(c, txs[j])
  }

  /**
   In a reachable state with an idle worker and a spaced log, some next round breaks the spacing exactly if some
   pending row that can be resent is stamped after the oldest one.
   */
  lemma SomeRoundBreaksSpacingIff(c: Config, s: State, a: Address, txs: seq<StoredTx>)
    requires Reachable(c, s) && s.worker == WorkerIdle && Spaced(c, s.resends, a)
    requires IsNonceRange(s.rows, a, s.ChainOf(a).mined, None, txs)
    ensures SomeRoundBreaksSpacing(c, s, a, txs) <==> SomeStampIsAfterOldest(c, s, txs)
  {
    if block, minPriority: nat, baseFee: nat, replies :|
      BreaksSpacing(c, s, a, txs, block, minPriority, baseFee, replies)
    {
      BreakingRoundIsTooSoon(c, s, a, txs, block, minPriority, baseFee, replies);
      TooSoonNeedsStamp(c, s, txs, block.timestamp, minPriority, baseFee, replies);
    }
    if SomeStampIsAfterOldest(c, s, txs) {
      var block, cap := Block(0, EarliestRound(c, s, txs[0])), c.maxMaxFeePerGas;
      var replies := GoodReplies(txs, Fees(cap, cap));
      StampMakesTooSoon(c, s, txs);
      BreakingRoundIsTooSoon(c, s, a, txs, block, cap, cap, replies);
    }
  }

  lemma BreakingRoundIsTooSoon(
    c: Config, s: State, a: Address, txs: seq<StoredTx>, block: Block, minPriority: nat, baseFee: nat,
    replies: nat -> Reply)
    requires Reachable(c, s) && s.worker == WorkerIdle && Spaced(c, s.resends, a)
    requires s.workerTime <= block.timestamp && IsNonceRange(s.rows, a, s.ChainOf(a).mined, None, txs)
    ensures BreaksSpacing(c, s, a, txs, block, minPriority, baseFee, replies) <==>
      txs != [] && TooSoon(c, s, txs, NewFees(c, txs[0], minPriority, baseFee), replies, block.timestamp)
  {
    NextRoundBreaksSpacingIff(c, s, Round(a, block, s.ChainOf(a).mined), txs, minPriority, baseFee, replies);
  }

  lemma TooSoonNeedsStamp(
    c: Config, s: State, txs: seq<StoredTx>, time: int, minPriority: nat, baseFee: nat, replies: nat -> Reply)
    requires s.workerTime <= time && txs != []
    requires TooSoon(c, s, txs, NewFees(c, txs[0], minPriority, baseFee), replies, time)
    ensures SomeStampIsAfterOldest(c, s, txs)
  {
    var fees := NewFees(c, txs[0], minPriority, baseFee);
    var j: nat :| IsWritten(c, txs, fees, replies, 0, j) && ResentAndStampedAfter(c, s, txs[j], time);
    WrittenCanBeResent(c, txs[0], txs[j], minPriority, baseFee, replies(j));
    assert StampedAfterOldest(c, s, txs[0], txs[j]);
  }

  /** The first time, from the worker's on, at which the oldest row is due. */
  function EarliestRound(c: Config, s: State, oldest: StoredTx): int {
    var due := oldest.LastSent() + c.pendingTransactionTimeoutSeconds;
    if due < s.workerTime then s.workerTime else due
  }

  lemma StampMakesTooSoon(c: Config, s: State, txs: seq<StoredTx>)
    requires SomeStampIsAfterOldest(c, s, txs)
    ensures var cap := c.maxMaxFeePerGas;
      TooSoon(c, s, txs, NewFees(c, txs[0], cap, cap), GoodReplies(txs, Fees(cap, cap)), EarliestRound(c, s, txs[0]))
  {
    var j :| 0 <= j < |txs| && StampedAfterOldest(c, s, txs[0], txs[j]) && CanBeResent(c, txs[j]);
    HighestFees(c, txs[0]);
    GoodRepliesWriteAll(c, txs, j);
    assert ResentAndStampedAfter(c, s, txs[j], EarliestRound(c, s, txs[0]));
  }

  lemma WrittenCanBeResent(c: Config, oldest: StoredTx, tx: StoredTx, minPriority: nat, baseFee: nat, reply: Reply)
    requires PassesCheck(c, tx, NewFees(c, oldest, minPriority, baseFee), reply)
    ensures CanBeResent(c, tx)
  {
    ResolvedFeesAreValid(c.retryGasPriceFactor, c.maxMaxFeePerGas, oldest.fees, minPriority, baseFee);
  }

  /** Network fees at the configured cap give the highest pair a round can resolve. */
  lemma HighestFees(c: Config, oldest: StoredTx)
    ensures NewFees(c, oldest, c.maxMaxFeePerGas, c.maxMaxFeePerGas) == Fees(c.maxMaxFeePerGas, c.maxMaxFeePerGas)
  {
    ResolvedFeesAreValid(
      c.retryGasPriceFactor, c.maxMaxFeePerGas, oldest.fees, c.maxMaxFeePerGas, c.maxMaxFeePerGas);
  }

  /** Every balance suffices and every broadcast succeeds. */
  function GoodReplies(txs: seq<StoredTx>, fees: Fees): nat -> Reply {
    (i: nat) => if i < |txs| then Reply(FeesUsed(txs[i], fees).max * txs[i].call.gas, true) else Reply(0, true)
  }

  lemma GoodRepliesWriteAll(c: Config, txs: seq<StoredTx>, i: nat)
    requires i < |txs| && CanBeResent(c, txs[i])
    ensures var fees := Fees(c.maxMaxFeePerGas, c.maxMaxFeePerGas);
      IsWritten(c, txs, fees, GoodReplies(txs, fees), 0, i)
  {
  }
}
