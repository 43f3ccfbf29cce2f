/**
 Two resends of a transaction are never closer than the pending-transaction timeout, although a round looks
 only at its oldest transaction: a round stamps every row it resends, in order of nonce.
 */
module ResendSpacing {
  import opened Wrappers
  import opened StoredTransactions
  import opened TxStore
  import opened NoncePipeline
  import opened NonceSafety
  import opened BoostRounds

  predicate StampedBy(tx: StoredTx, time: int) {
    tx.boostBlock.Some? ==> tx.boostBlock.value.timestamp <= time
  }

  /** When a key was last resent in the run. */
  function LastResent(resends: seq<Resend>, k: Key): Option<int> {
    if resends == [] then None
    else
      var n := |resends| - 1;
      if resends[n].key == k then Some(resends[n].timestamp) else LastResent(resends[..n], k)
  }

  /** If the later key was resent in the run, the earlier one has been resent since. */
  predicate ResentSince(resends: seq<Resend>, earlier: Key, later: Key) {
    LastResent(resends, later).Some? ==>
      LastResent(resends, earlier).Some? && LastResent(resends, later).value <= LastResent(resends, earlier).value
  }

  ghost predicate Ordered(resends: seq<Resend>, a: Address, from: nat) {
    forall n: nat, m: nat :: from <= n < m ==> ResentSince(resends, Key(a, n), Key(a, m))
  }

  /** The key was not resent in the run after `time`. */
  predicate ResentBy(resends: seq<Resend>, k: Key, time: int) {
    LastResent(resends, k).Some? ==> LastResent(resends, k).value <= time
  }

  function RoundOf(w: Worker): Option<Round> {
    if w.Counted? || w.Pricing? || w.Boosting? || w.Resending? then Some(w.round) else None
  }

  /** Where the ordering of a signer's resends starts: at the count its running round has read, if there is one. */
  function From(s: State, a: Address): nat {
    var r := RoundOf(s.worker);
    if r.Some? && r.value.signer == a then r.value.mined else s.ChainOf(a).mined
  }

  ghost predicate StampInv(s: State) {
    && (forall a :: From(s, a) <= s.ChainOf(a).mined)
    && (forall i :: 0 <= i < |s.resends| ==> s.resends[i].timestamp <= s.workerTime)
    && (RoundOf(s.worker).Some? ==> s.worker.round.block.timestamp == s.workerTime)
  }

  ghost predicate OrderInv(s: State) {
    forall a :: a !in s.uneven ==> Ordered(s.resends, a, From(s, a))
  }

  /** The rows of a round's snapshot from `done` on were not resent in the run for one timeout before the round. */
  ghost predicate Due(c: Config, resends: seq<Resend>, round: Round, txs: seq<StoredTx>, done: nat) {
    forall j :: done <= j < |txs| ==>
      ResentBy(resends, txs[j].key, round.block.timestamp - c.pendingTransactionTimeoutSeconds)
  }

  ghost predicate ResentNow(resends: seq<Resend>, round: Round, txs: seq<StoredTx>, done: nat) {
    forall j :: 0 <= j < done && j < |txs| ==> LastResent(resends, txs[j].key) == Some(round.block.timestamp)
  }

  /** What a running round relies on, unless its signer has become uneven; a round that has skipped writes no row. */
  ghost predicate RoundInv(c: Config, s: State) {
    match s.worker
    case Pricing(round, txs) => round.signer !in s.uneven ==> Due(c, s.resends, round, txs, 0)
    case Boosting(round, txs, _, i) =>
      && (round.signer !in s.uneven ==> Due(c, s.resends, round, txs, i))
      && (!s.skipped ==> ResentNow(s.resends, round, txs, i))
    case Resending(round, txs, _, i) =>
      && (round.signer !in s.uneven ==> Due(c, s.resends, round, txs, i + 1))
      && (!s.skipped ==> ResentNow(s.resends, round, txs, i + 1))
    case _ => true
  }

  /** A logged resend is of a stored key, whose row bears its stamp or a later one. */
  predicate Recorded(c: Config, s: State, r: Resend) {
    && r.key.nonce < BookOf(c, s, r.key.signer).Next()
    && (r.key in s.rows ==>
          s.rows[r.key].boostBlock.Some? && r.timestamp <= s.rows[r.key].boostBlock.value.timestamp)
  }

  /** A row resent in the run bears the stamp of its last resend. */
  predicate BearsLastStamp(resends: seq<Resend>, k: Key, tx: StoredTx) {
    LastResent(resends, k).Some? ==>
      tx.boostBlock.Some? && tx.boostBlock.value.timestamp == LastResent(resends, k).value
  }

  ghost predicate LogInv(c: Config, s: State) {
    && (forall i :: 0 <= i < |s.resends| ==> Recorded(c, s, s.resends[i]))
    && (forall k :: k in s.rows ==> BearsLastStamp(s.resends, k, s.rows[k]))
  }

  /** Any two resends of the same transaction of the signer are at least the timeout apart. */
  ghost predicate Spaced(c: Config, resends: seq<Resend>, a: Address) {
    forall i, j :: 0 <= i < j < |resends| ==> PairSpaced(c, resends, a, i, j)
  }

  predicate PairSpaced(c: Config, resends: seq<Resend>, a: Address, i: nat, j: nat)
    requires i < |resends| && j < |resends|
  {
    resends[i].key == resends[j].key && resends[j].key.signer == a ==>
      resends[j].timestamp - resends[i].timestamp >= c.pendingTransactionTimeoutSeconds
  }

  ghost predicate EvenOnesSpaced(c: Config, s: State) {
    forall a :: a !in s.uneven ==> Spaced(c, s.resends, a)
  }

  ghost predicate SpacingInv(c: Config, s: State) {
    StampInv(s) && OrderInv(s) && RoundInv(c, s) && LogInv(c, s) && EvenOnesSpaced(c, s)
  }

  // ---------- The other processes ----------

  /** A step that changes no stamp of a row and logs nothing keeps the log in agreement. */
  lemma LogFrame(c: Config, s: State, s': State)
    requires LogInv(c, s) && s'.resends == s.resends
    requires forall a :: BookOf(c, s, a).Next() <= BookOf(c, s', a).Next()
    requires forall k :: k in s'.rows && k in s.rows ==> s'.rows[k].boostBlock == s.rows[k].boostBlock
    requires forall k :: k in s'.rows && k !in s.rows ==> BookOf(c, s, k.signer).Next() <= k.nonce
    ensures LogInv(c, s')
  {
    forall i | 0 <= i < |s'.resends|
      ensures Recorded(c, s', s'.resends[i])
    {
      assert Recorded(c, s, s.resends[i]);
    }
    forall k | k in s'.rows
      ensures BearsLastStamp(s'.resends, k, s'.rows[k])
    {
      if k in s.rows {
        assert BearsLastStamp(s.resends, k, s.rows[k]);
      } else {
        NeverResent(c, s, s.resends, k);
      }
    }
  }

  /** A key above all that was stored so far has no entry in the log. */
  lemma {:induction false} NeverResent(c: Config, s: State, resends: seq<Resend>, k: Key)
    requires forall i :: 0 <= i < |resends| ==> Recorded(c, s, resends[i])
    requires BookOf(c, s, k.signer).Next() <= k.nonce
    ensures LastResent(resends, k) == None
  {
    if resends != [] {
      var n := |resends| - 1;
      assert Recorded(c, s, resends[n]);
      forall i | 0 <= i < n
        ensures Recorded(c, s, resends[..n][i])
      {
        assert Recorded(c, s, resends[i]);
      }
      NeverResent(c, s, resends[..n], k);
    }
  }

  lemma OtherProcessesKeepSpacing(c: Config, s: State, s': State)
    requires StoreInv(c, s) && SpacingInv(c, s)
    requires KeepsRows(s, s') && NewRowsAreFresh(c, s, s') && WorkerUntouched(s, s')
    requires forall a :: s.ChainOf(a).mined <= s'.ChainOf(a).mined
    requires forall a :: BookOf(c, s, a).Next() <= BookOf(c, s', a).Next()
    ensures SpacingInv(c, s')
  {
    forall a
      ensures From(s, a) <= From(s', a) <= s'.ChainOf(a).mined
      ensures a !in s'.uneven ==> Ordered(s'.resends, a, From(s', a))
    {
      assert From(s, a) <= s.ChainOf(a).mined;
      if a !in s.uneven {
        ShorterRangeIsOrdered(s.resends, a, From(s, a), From(s', a));
      }
    }
    LogFrame(c, s, s');
  }

  lemma ShorterRangeIsOrdered(resends: seq<Resend>, a: Address, from: nat, from': nat)
    requires Ordered(resends, a, from) && from <= from'
    ensures Ordered(resends, a, from')
  {
  }

  // ---------- The worker ----------

  /** A step of the worker that logs nothing keeps the order. */
  lemma OrderFrame(s: State, s': State)
    requires StampInv(s) && OrderInv(s) && s'.chain == s.chain && s.workerTime <= s'.workerTime
    requires s'.uneven == s.uneven && s'.resends == s.resends
    requires RoundOf(s'.worker).Some? ==>
      && s'.worker.round.block.timestamp == s'.workerTime
      && (if RoundOf(s.worker).Some? then s'.worker.round == s.worker.round
          else s'.worker.round.mined == s.ChainOf(s'.worker.round.signer).mined)
    ensures StampInv(s') && OrderInv(s')
  {
    forall a
      ensures From(s, a) <= From(s', a) <= s'.ChainOf(a).mined
      ensures a !in s'.uneven ==> Ordered(s'.resends, a, From(s', a))
    {
      assert From(s, a) <= s.ChainOf(a).mined;
      if a !in s.uneven {
        ShorterRangeIsOrdered(s.resends, a, From(s, a), From(s', a));
      }
    }
  }

  /** Marking and pruning leave the stamps of the rows that remain as they are. */
  lemma MarkingKeepsSpacing(c: Config, s: State, step: WorkStep, s': State)
    requires Inv(c, s) && SpacingInv(c, s) && IsMarkingStep(step) && MarkingNext(s, step, s')
    ensures SpacingInv(c, s')
  {
    MarkingFrame(s, step, s');
    MarkingKeepsOrder(s, step, s');
    MarkingKeepsLog(c, s, step, s');
  }

  lemma MarkingKeepsOrder(s: State, step: WorkStep, s': State)
    requires StampInv(s) && OrderInv(s) && IsMarkingStep(step) && MarkingNext(s, step, s')
    ensures StampInv(s') && OrderInv(s')
  {
    MarkingFrame(s, step, s');
    OrderFrame(s, s');
  }

  lemma MarkingKeepsLog(c: Config, s: State, step: WorkStep, s': State)
    requires Inv(c, s) && LogInv(c, s) && IsMarkingStep(step) && MarkingNext(s, step, s')
    ensures LogInv(c, s')
  {
    MarkingFrame(s, step, s');
    MarkingKeepsStamps(c, s, step, s');
    LogFrame(c, s, s');
  }

  lemma MarkingKeepsStamps(c: Config, s: State, step: WorkStep, s': State)
    requires Inv(c, s) && IsMarkingStep(step) && MarkingNext(s, step, s')
    ensures forall k :: k in s'.rows ==> k in s.rows && s'.rows[k].boostBlock == s.rows[k].boostBlock
  {
    if step.WriteMined? {
      WriteMinedStep(c, s, s');
      ListAfterWrite(s.rows, s.worker.tx, s.worker.todo, WithMinedBlock(s.worker.tx, s.worker.minedBlock));
    } else if !step.Prune? {
      QuietMarkingKeepsRows(s, step, s');
    }
  }

  lemma MarkingFrame(s: State, step: WorkStep, s': State)
    requires IsMarkingStep(step) && MarkingNext(s, step, s')
    ensures s'.server == s.server && s'.chain == s.chain && s'.workerTime == s.workerTime && s'.resends == s.resends
    ensures s'.skipped == s.skipped && s'.uneven == s.uneven
    ensures RoundOf(s.worker).None? && RoundOf(s'.worker).None?
  {
  }

  lemma QuietMarkingKeepsRows(s: State, step: WorkStep, s': State)
    requires IsMarkingStep(step) && MarkingNext(s, step, s') && !step.WriteMined? && !step.Prune?
    ensures s'.rows == s.rows
  {
  }

  /** A round step that writes no row: the ordering can only be needed on a shorter range. */
  lemma QuietRoundKeepsSpacing(c: Config, s: State, step: WorkStep, s': State)
    requires Inv(c, s) && SpacingInv(c, s) && RoundNext(c, s, step, s') && !step.StoreAttempt?
    ensures SpacingInv(c, s')
  {
    QuietRoundKeepsOrder(c, s, step, s');
    if step.LoadPending? {
      LoadedRowsAreDue(c, s, step.txs, s');
    } else {
      QuietRoundKeepsRoundInv(c, s, step, s');
    }
  }

  lemma QuietRoundKeepsOrder(c: Config, s: State, step: WorkStep, s': State)
    requires StampInv(s) && OrderInv(s) && LogInv(c, s) && EvenOnesSpaced(c, s)
    requires RoundNext(c, s, step, s') && !step.StoreAttempt?
    ensures StampInv(s') && OrderInv(s') && LogInv(c, s') && EvenOnesSpaced(c, s')
  {
    QuietRoundFrame(c, s, step, s');
    OrderFrame(s, s');
    LogFrame(c, s, s');
  }

  lemma QuietRoundKeepsRoundInv(c: Config, s: State, step: WorkStep, s': State)
    requires RoundInv(c, s) && RoundNext(c, s, step, s')
    requires !step.StoreAttempt? && !step.LoadPending?
    ensures RoundInv(c, s')
  {
  }

  lemma QuietRoundFrame(c: Config, s: State, step: WorkStep, s': State)
    requires RoundNext(c, s, step, s') && !step.StoreAttempt?
    ensures s'.rows == s.rows && s'.server == s.server && s'.chain == s.chain && s'.resends == s.resends
    ensures s'.uneven == s.uneven && s.workerTime <= s'.workerTime
    ensures RoundOf(s'.worker).Some? && RoundOf(s.worker).Some? ==>
      s'.worker.round == s.worker.round && s'.workerTime == s.workerTime
    ensures RoundOf(s'.worker).Some? && RoundOf(s.worker).None? ==>
      s'.worker.round.mined == s.ChainOf(s'.worker.round.signer).mined
      && s'.worker.round.block.timestamp == s'.workerTime
  {
  }

  /** The timeout check on the oldest pending row speaks for all of them, while the signer's resends are in order. */
  lemma LoadedRowsAreDue(c: Config, s: State, txs: seq<StoredTx>, s': State)
    requires Inv(c, s) && SpacingInv(c, s) && RoundNext(c, s, LoadPending(txs), s')
    ensures s'.worker.Pricing? && s'.worker.round.signer !in s'.uneven ==>
      Due(c, s'.resends, s'.worker.round, s'.worker.txs, 0)
  {
    var round := s.worker.round;
    LoadPendingStep(c, s, txs, s');
    if s'.worker.Pricing? && round.signer !in s'.uneven {
      RangeIsStored(s.rows, round.signer, round.mined, txs);
      assert BearsLastStamp(s.resends, txs[0].key, txs[0]);
      OldestSpeaksForAll(c, s.resends, round, txs);
    }
  }

  lemma RangeIsStored(rows: Rows, a: Address, from: nat, txs: seq<StoredTx>)
    requires IsNonceRange(rows, a, from, None, txs)
    ensures forall j :: 0 <= j < |txs| ==> txs[j].key in rows && rows[txs[j].key] == txs[j]
  {
  }

  lemma OldestSpeaksForAll(c: Config, resends: seq<Resend>, round: Round, txs: seq<StoredTx>)
    requires Ordered(resends, round.signer, round.mined) && txs != []
    requires forall j :: 0 <= j < |txs| ==> txs[j].key == Key(round.signer, round.mined + j)
    requires BearsLastStamp(resends, txs[0].key, txs[0])
    requires round.block.timestamp - txs[0].LastSent() >= c.pendingTransactionTimeoutSeconds
    ensures Due(c, resends, round, txs, 0)
  {
    forall j | 0 <= j < |txs|
      ensures ResentBy(resends, txs[j].key, round.block.timestamp - c.pendingTransactionTimeoutSeconds)
    {
      assert txs[0].key == Key(round.signer, round.mined) && txs[j].key == Key(round.signer, round.mined + j);
      if j > 0 {
        assert ResentSince(resends, txs[0].key, txs[j].key);
      }
    }
  }

  lemma StoreAttemptKeepsSpacing(c: Config, s: State, s': State)
    requires Inv(c, s) && SpacingInv(c, s) && RoundNext(c, s, StoreAttempt, s')
    ensures SpacingInv(c, s')
  {
    StoreAttemptWrites(c, s, s');
    EntryIsNewest(c, s, s');
    EntryKeepsRoundInv(c, s, s');
    EntryKeepsEvenOrder(c, s, s');
    AttemptIsLogged(c, s, s');
    EvenAttemptIsSpaced(c, s, s');
  }

  lemma EntryIsNewest(c: Config, s: State, s': State)
    requires WorkerInv(c, s) && StampInv(s) && RoundNext(c, s, StoreAttempt, s')
    ensures StampInv(s')
  {
    StoreAttemptWrites(c, s, s');
    forall a
      ensures From(s', a) == From(s, a) <= s'.ChainOf(a).mined
    {
    }
  }

  lemma EntryKeepsRoundInv(c: Config, s: State, s': State)
    requires WorkerInv(c, s) && RoundInv(c, s) && RoundNext(c, s, StoreAttempt, s')
    ensures RoundInv(c, s')
  {
    var w := s.worker;
    StoreAttemptWrites(c, s, s');
    EntryOfSnapshot(s.resends, w.round, w.txs, w.i, Resend(w.txs[w.i].key, w.round.block.timestamp));
  }

  /** What a new entry changes for the rows of a snapshot: row `i` is resent now, the others are as they were. */
  lemma EntryOfSnapshot(resends: seq<Resend>, round: Round, txs: seq<StoredTx>, i: nat, entry: Resend)
    requires i < |txs| && forall j :: 0 <= j < |txs| ==> txs[j].key == Key(round.signer, round.mined + j)
    requires entry.key == txs[i].key
    ensures forall j :: 0 <= j < |txs| ==>
      LastResent(resends + [entry], txs[j].key)
      == if j == i then Some(entry.timestamp) else LastResent(resends, txs[j].key)
  {
    forall j | 0 <= j < |txs|
      ensures LastResent(resends + [entry], txs[j].key)
           == if j == i then Some(entry.timestamp) else LastResent(resends, txs[j].key)
    {
      LastAfter(resends, entry, txs[j].key);
    }
  }

  /** Unless a row was skipped before, which makes the signer uneven, the new entry keeps the order. */
  lemma EntryKeepsEvenOrder(c: Config, s: State, s': State)
    requires WorkerInv(c, s) && StampInv(s) && OrderInv(s) && RoundInv(c, s) && RoundNext(c, s, StoreAttempt, s')
    ensures OrderInv(s')
  {
    var w := s.worker;
    StoreAttemptWrites(c, s, s');
    var entry := Resend(w.txs[w.i].key, w.round.block.timestamp);
    forall a | a !in s'.uneven
      ensures Ordered(s'.resends, a, From(s', a))
    {
      assert Ordered(s.resends, a, From(s, a));
      if a == w.round.signer {
        EntryKeepsOrder(s.resends, w.round, w.txs, w.i, entry);
      } else {
        OtherSignersOrder(s.resends, entry, a, From(s, a));
      }
    }
  }

  lemma OtherSignersOrder(resends: seq<Resend>, entry: Resend, a: Address, from: nat)
    requires Ordered(resends, a, from) && entry.key.signer != a
    ensures Ordered(resends + [entry], a, from)
  {
    forall n: nat, m: nat | from <= n < m
      ensures ResentSince(resends + [entry], Key(a, n), Key(a, m))
    {
      assert ResentSince(resends, Key(a, n), Key(a, m));
      LastAfter(resends, entry, Key(a, n));
      LastAfter(resends, entry, Key(a, m));
    }
  }

  /** The rows before `i` were resent in this round already, so resending row `i` keeps the order. */
  lemma EntryKeepsOrder(resends: seq<Resend>, round: Round, txs: seq<StoredTx>, i: nat, entry: Resend)
    requires Ordered(resends, round.signer, round.mined) && i < |txs|
    requires forall j :: 0 <= j < |txs| ==> txs[j].key == Key(round.signer, round.mined + j)
    requires ResentNow(resends, round, txs, i) && entry == Resend(txs[i].key, round.block.timestamp)
    requires forall j :: 0 <= j < |resends| ==> resends[j].timestamp <= round.block.timestamp
    ensures Ordered(resends + [entry], round.signer, round.mined)
  {
    var a := round.signer;
    forall n: nat, m: nat | round.mined <= n < m
      ensures ResentSince(resends + [entry], Key(a, n), Key(a, m))
    {
      assert ResentSince(resends, Key(a, n), Key(a, m));
      LastAfter(resends, entry, Key(a, n));
      LastAfter(resends, entry, Key(a, m));
      LastResentIsIn(resends, Key(a, m));
      if Key(a, m) == txs[i].key {
        assert txs[n - round.mined].key == Key(a, n);
      }
    }
  }

  lemma AttemptIsLogged(c: Config, s: State, s': State)
    requires Inv(c, s) && StampInv(s) && LogInv(c, s) && RoundNext(c, s, StoreAttempt, s')
    ensures LogInv(c, s')
  {
    var w := s.worker;
    StoreAttemptWrites(c, s, s');
    var row := Attempt(c, w.txs[w.i], w.fees, w.round.block);
    var entry := Resend(row.key, w.round.block.timestamp);
    assert RowInv(BookOf(c, s, row.key.signer), s.rows[row.key]);
    forall i | 0 <= i < |s'.resends|
      ensures Recorded(c, s', s'.resends[i])
    {
      assert BookOf(c, s', s'.resends[i].key.signer) == BookOf(c, s, s'.resends[i].key.signer);
      if i < |s.resends| {
        assert Recorded(c, s, s.resends[i]);
      }
    }
    forall k | k in s'.rows
      ensures BearsLastStamp(s'.resends, k, s'.rows[k])
    {
      LastAfter(s.resends, entry, k);
      if k != row.key {
        assert BearsLastStamp(s.resends, k, s.rows[k]);
      }
    }
  }

  lemma LastAfter(resends: seq<Resend>, entry: Resend, k: Key)
    ensures LastResent(resends + [entry], k) == if entry.key == k then Some(entry.timestamp) else LastResent(resends, k)
  {
    assert (resends + [entry])[..|resends|] == resends;
  }

  /** All entries of a key are up to its last one. */
  lemma {:induction false} LastResentIsIn(resends: seq<Resend>, k: Key)
    ensures LastResent(resends, k).Some? ==>
      exists i :: 0 <= i < |resends| && resends[i] == Resend(k, LastResent(resends, k).value)
    ensures LastResent(resends, k).None? ==> forall i :: 0 <= i < |resends| ==> resends[i].key != k
  {
    if resends != [] {
      var n := |resends| - 1;
      if resends[n].key != k {
        LastResentIsIn(resends[..n], k);
        assert forall i :: 0 <= i < n ==> resends[..n][i] == resends[i];
        if LastResent(resends, k).Some? {
          var i :| 0 <= i < n && resends[..n][i] == Resend(k, LastResent(resends, k).value);
          assert resends[i] == Resend(k, LastResent(resends, k).value);
        }
      } else {
        assert resends[n] == Resend(k, LastResent(resends, k).value);
      }
    }
  }

  /**
   Exactly when a resend leaves the log of a signer spaced: the previous resend of the same transaction in the
   run, if there was one, is at least the timeout ago. No hypothesis on skipped rows is needed here.
   */
  lemma ResendIsSpacedIff(c: Config, s: State, s': State, a: Address)
    requires Inv(c, s) && StampInv(s) && LogInv(c, s) && RoundNext(c, s, StoreAttempt, s')
    ensures var w := s.worker;
      Spaced(c, s'.resends, a) <==>
        && Spaced(c, s.resends, a)
        && (a == w.round.signer && LastResent(s.resends, w.txs[w.i].key).Some? ==>
              StampedBy(w.txs[w.i], w.round.block.timestamp - c.pendingTransactionTimeoutSeconds))
  {
    var w := s.worker;
    StoreAttemptWrites(c, s, s');
    var k := w.txs[w.i].key;
    var entry := Resend(k, w.round.block.timestamp);
    assert s.rows[k] == w.txs[w.i] && BearsLastStamp(s.resends, k, s.rows[k]);
    LastResentIsIn(s.resends, k);
    forall i | 0 <= i < |s.resends| && s.resends[i].key == k
      ensures LastResent(s.resends, k).Some? && s.resends[i].timestamp <= LastResent(s.resends, k).value
    {
      assert Recorded(c, s, s.resends[i]);
    }
    EntryIsSpacedIff(c, s.resends, entry, a);
  }

  lemma EntryIsSpacedIff(c: Config, resends: seq<Resend>, entry: Resend, a: Address)
    requires forall i :: 0 <= i < |resends| && resends[i].key == entry.key ==>
      LastResent(resends, entry.key).Some? && resends[i].timestamp <= LastResent(resends, entry.key).value
    ensures Spaced(c, resends + [entry], a) <==>
      && Spaced(c, resends, a)
      && (entry.key.signer == a && LastResent(resends, entry.key).Some? ==>
            entry.timestamp - LastResent(resends, entry.key).value >= c.pendingTransactionTimeoutSeconds)
  {
    var all, n := resends + [entry], |resends|;
    LastResentIsIn(resends, entry.key);
    if Spaced(c, all, a) {
      forall i, j | 0 <= i < j < n
        ensures PairSpaced(c, resends, a, i, j)
      {
        assert PairSpaced(c, all, a, i, j);
      }
      if LastResent(resends, entry.key).Some? {
        var i :| 0 <= i < n && resends[i] == Resend(entry.key, LastResent(resends, entry.key).value);
        assert PairSpaced(c, all, a, i, n);
      }
    }
    if Spaced(c, resends, a) {
      forall i, j | 0 <= i < j < n
        ensures PairSpaced(c, all, a, i, j)
      {
        assert PairSpaced(c, resends, a, i, j);
      }
    }
  }

  lemma EvenAttemptIsSpaced(c: Config, s: State, s': State)
    requires Inv(c, s) && SpacingInv(c, s) && RoundNext(c, s, StoreAttempt, s')
    ensures EvenOnesSpaced(c, s')
  {
    var w := s.worker;
    StoreAttemptWrites(c, s, s');
    assert BearsLastStamp(s.resends, w.txs[w.i].key, s.rows[w.txs[w.i].key]);
    forall a | a !in s'.uneven
      ensures Spaced(c, s'.resends, a)
    {
      ResendIsSpacedIff(c, s, s', a);
    }
  }

  // ---------- Every run ----------

  lemma NextNeverGoesBack(c: Config, s: State, step: Step, s': State)
    requires Inv(c, s) && Inv(c, s') && Next(c, s, step, s') && !step.WorkStep?
    ensures forall a :: BookOf(c, s, a).Next() <= BookOf(c, s', a).Next()
  {
    OtherProcessesKeepRows(c, s, step, s');
    forall a
      ensures BookOf(c, s, a).Next() <= BookOf(c, s', a).Next()
    {
      assert AccountInv(c, s, a) && AccountInv(c, s', a);
      StoredBelowNext(c, s, s', a);
    }
  }

  lemma StoredBelowNext(c: Config, s: State, s': State, a: Address)
    requires StoreInv(c, s) && StoreInv(c, s') && KeepsRows(s, s') && s.ChainOf(a).mined <= s'.ChainOf(a).mined
    ensures BookOf(c, s, a).Next() <= BookOf(c, s', a).Next()
  {
    var next, next' := BookOf(c, s, a).Next(), BookOf(c, s', a).Next();
    assert AccountInv(c, s, a) && AccountInv(c, s', a);
    var mined := s.ChainOf(a).mined;
    if mined < next {
      assert Key(a, next - 1) in s.rows;
      assert RowInv(BookOf(c, s', a), s'.rows[Key(a, next - 1)]);
    }
  }

  lemma NextKeepsSpacing(c: Config, s: State, step: Step, s': State)
    requires Inv(c, s) && Next(c, s, step, s') && SpacingInv(c, s)
    ensures SpacingInv(c, s')
  {
    if step.WorkStep? {
      if IsMarkingStep(step.work) {
        MarkingKeepsSpacing(c, s, step.work, s');
      } else if step.work.StoreAttempt? {
        StoreAttemptKeepsSpacing(c, s, s');
      } else {
        QuietRoundKeepsSpacing(c, s, step.work, s');
      }
    } else {
      NextKeepsInv(c, s, step, s');
      OtherProcessesKeepRows(c, s, step, s');
      NextNeverGoesBack(c, s, step, s');
      OtherProcessesKeepSpacing(c, s, s');
    }
  }

  lemma StartIsSpaced(c: Config, s: State)
    requires Init(c, s)
    ensures SpacingInv(c, s)
  {
    forall a
      ensures From(s, a) == s.ChainOf(a).mined && Ordered(s.resends, a, From(s, a))
    {
    }
  }

  lemma {:induction false} RunKeepsSpacing(c: Config, states: seq<State>, steps: seq<Step>, i: nat)
    requires IsRun(c, states, steps) && i < |states|
    ensures SpacingInv(c, states[i])
  {
    if i == 0 {
      StartIsSpaced(c, states[0]);
    } else {
      RunKeepsSpacing(c, states, steps, i - 1);
      RunKeepsInv(c, states, steps, i - 1);
      assert StepAt(c, states, steps, i - 1);
      NextKeepsSpacing(c, states[i - 1], steps[i - 1], states[i]);
    }
  }

  /**
   The spacing of a signer's resends over a whole run: they are at least the timeout apart unless a round has
   written a row of this signer after skipping one of its rows (see `UnevenExactly`).
   */
  lemma ResendsAreSpaced(c: Config, states: seq<State>, steps: seq<Step>, i: nat, a: Address)
    requires IsRun(c, states, steps) && i < |states|
    requires a !in states[i].uneven
    ensures Spaced(c, states[i].resends, a)
  {
    RunKeepsSpacing(c, states, steps, i);
  }

  /** Step `i` writes a row of the signer in a round that has skipped a row before. */
  predicate WritesAfterSkip(states: seq<State>, steps: seq<Step>, i: nat, a: Address)
    requires i < |states| && i < |steps|
  {
    && steps[i] == WorkStep(StoreAttempt) && states[i].skipped
    && RoundOf(states[i].worker).Some? && RoundOf(states[i].worker).value.signer == a
  }

  ghost predicate HasWrittenAfterSkip(states: seq<State>, steps: seq<Step>, i: nat, a: Address)
    requires i < |states| && i <= |steps|
  {
    exists j :: 0 <= j < i && WritesAfterSkip(states, steps, j, a)
  }

  /** What `uneven` remembers of a run. */
  lemma {:induction false} UnevenExactly(c: Config, states: seq<State>, steps: seq<Step>, i: nat, a: Address)
    requires IsRun(c, states, steps) && i < |states|
    ensures a in states[i].uneven <==> HasWrittenAfterSkip(states, steps, i, a)
  {
    if i > 0 {
      UnevenExactly(c, states, steps, i - 1, a);
      UnevenAt(c, states, steps, i - 1, a);
      OneStepMore(states, steps, i - 1, a);
    }
  }

  lemma OneStepMore(states: seq<State>, steps: seq<Step>, i: nat, a: Address)
    requires i + 1 < |states| && i < |steps|
    ensures HasWrittenAfterSkip(states, steps, i + 1, a)
       <==> HasWrittenAfterSkip(states, steps, i, a) || WritesAfterSkip(states, steps, i, a)
  {
  }

  lemma UnevenAt(c: Config, states: seq<State>, steps: seq<Step>, i: nat, a: Address)
    requires IsRun(c, states, steps) && i < |steps|
    ensures a in states[i + 1].uneven <==> a in states[i].uneven || WritesAfterSkip(states, steps, i, a)
  {
    RunKeepsInv(c, states, steps, i);
    assert StepAt(c, states, steps, i);
    UnevenStep(c, states[i], steps[i], states[i + 1], a);
  }

  lemma UnevenStep(c: Config, s: State, step: Step, s': State, a: Address)
    requires Inv(c, s) && Next(c, s, step, s')
    ensures a in s'.uneven <==>
      a in s.uneven
      || (step == WorkStep(StoreAttempt) && s.skipped && RoundOf(s.worker).Some? && RoundOf(s.worker).value.signer == a)
  {
    if !step.WorkStep? {
      OtherProcessesKeepRows(c, s, step, s');
    } else if IsMarkingStep(step.work) {
      MarkingFrame(s, step.work, s');
    } else if step.work.StoreAttempt? {
      StoreAttemptWrites(c, s, s');
    } else {
      QuietRoundFrame(c, s, step.work, s');
    }
  }
}
