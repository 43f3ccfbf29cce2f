/**
 A transaction that was resent with other fees and then mined under the hash of the earlier attempt. Receipts are
 looked up by the hash of the last attempt, and rounds load rows from the mined count on only, so no marking, pruning
 or boosting ever changes its row again.
 */
module ReplacedAttempt {
  import opened Wrappers
  import opened StoredTransactions
  import opened TxStore
  import opened GasFees
  import opened NoncePipeline
  import opened NonceSafety
  import opened BoostRounds
  import opened ResendSpacing
  import opened Paths
  import opened TransactionManager
  import opened ExampleRuns

  /** Whatever the worker does next, it does not write this row. */
  predicate LeavesAlone(w: Worker, k: Key) {
    match w
    case WritingMined(tx, _, _) => tx.key != k
    case Counted(round) => IsBefore(k, round)
    case Pricing(round, _) => IsBefore(k, round)
    case Boosting(round, _, _, _) => IsBefore(k, round)
    case Resending(round, _, _, _) => IsBefore(k, round)
    case _ => true
  }

  predicate IsBefore(k: Key, round: Round) {
    round.signer == k.signer ==> k.nonce < round.mined
  }

  /** The row is pending, although the chain has mined its nonce. */
  ghost predicate Stuck(s: State, k: Key, tx: StoredTx) {
    && k in s.rows && s.rows[k] == tx && tx.Pending() && k.nonce < s.ChainOf(k.signer).mined
    && LeavesAlone(s.worker, k)
  }

  /** If the step has found a receipt for the row, it is the one of `id`, which was mined under this nonce. */
  predicate ReceiptAgrees(s: State, step: Step, k: Key, id: TxId) {
    step.WorkStep? && step.work.Receipt? && s.worker.Marking? && s.worker.todo != [] && s.worker.todo[0].key == k ==>
      s.worker.todo[0].Id() == id
  }

  ghost predicate ReceiptsAgree(states: seq<State>, steps: seq<Step>, k: Key, id: TxId)
    requires |steps| <= |states|
  {
    forall i :: 0 <= i < |steps| ==> ReceiptAgrees(states[i], steps[i], k, id)
  }

  // ---------- Single steps ----------

  lemma MarkingKeepsStuck(c: Config, s: State, work: WorkStep, s': State, k: Key, tx: StoredTx, id: TxId)
    requires Inv(c, s) && IsMarkingStep(work) && MarkingNext(s, work, s') && Stuck(s, k, tx)
    requires ReceiptAgrees(s, WorkStep(work), k, id) && tx.Id() != id
    ensures Stuck(s', k, tx)
  {
    MarkingFrame(s, work, s');
    match work {
      case WriteMined => WritingKeepsStuck(c, s, s', k, tx);
      case Prune(_, _) =>
      case Receipt(_) => assert Lists(s.rows, s.worker.todo);
      case _ => QuietMarkingKeepsRows(s, work, s');
    }
  }

  lemma WritingKeepsStuck(c: Config, s: State, s': State, k: Key, tx: StoredTx)
    requires Inv(c, s) && MarkingNext(s, WriteMined, s') && Stuck(s, k, tx)
    ensures Stuck(s', k, tx)
  {
    ListAfterWrite(s.rows, s.worker.tx, s.worker.todo, WithMinedBlock(s.worker.tx, s.worker.minedBlock));
  }

  lemma AttemptKeepsStuck(c: Config, s: State, s': State, k: Key, tx: StoredTx)
    requires Inv(c, s) && RoundNext(c, s, StoreAttempt, s') && Stuck(s, k, tx)
    ensures Stuck(s', k, tx)
  {
    StoreAttemptWrites(c, s, s');
    assert s.worker.txs[s.worker.i].key == Key(s.worker.round.signer, s.worker.round.mined + s.worker.i);
  }

  lemma QuietRoundKeepsStuck(c: Config, s: State, work: WorkStep, s': State, k: Key, tx: StoredTx)
    requires RoundNext(c, s, work, s') && !work.StoreAttempt? && Stuck(s, k, tx)
    ensures Stuck(s', k, tx)
  {
    QuietRoundFrame(c, s, work, s');
  }

  lemma StepKeepsStuck(c: Config, s: State, step: Step, s': State, k: Key, tx: StoredTx, id: TxId)
    requires Inv(c, s) && Next(c, s, step, s') && Stuck(s, k, tx) && ReceiptAgrees(s, step, k, id) && tx.Id() != id
    ensures Stuck(s', k, tx)
  {
    if !step.WorkStep? {
      OtherProcessesKeepRows(c, s, step, s');
    } else if IsMarkingStep(step.work) {
      MarkingKeepsStuck(c, s, step.work, s', k, tx, id);
    } else if step.work.StoreAttempt? {
      AttemptKeepsStuck(c, s, s', k, tx);
    } else {
      QuietRoundKeepsStuck(c, s, step.work, s', k, tx);
    }
  }

  // ---------- Every continuation ----------

  /** However the pipeline goes on with receipts of `id` only, the row stays as it is, pending. */
  ghost predicate StaysPending(c: Config, s: State, k: Key, id: TxId)
    requires k in s.rows
  {
    forall states: seq<State>, steps: seq<Step> ::
      IsPath(c, states, steps) && states[0] == s && ReceiptsAgree(states, steps, k, id) ==>
        IsStill(states[|steps|], k, s.rows[k])
  }

  predicate IsStill(s: State, k: Key, tx: StoredTx) {
    k in s.rows && s.rows[k] == tx && tx.Pending()
  }

  ghost predicate StuckAt(c: Config, states: seq<State>, i: nat, k: Key, tx: StoredTx)
    requires i < |states|
  {
    Inv(c, states[i]) && Stuck(states[i], k, tx)
  }

  lemma {:induction false} PathKeepsStuck(
    c: Config, states: seq<State>, steps: seq<Step>, i: nat, k: Key, tx: StoredTx, id: TxId)
    requires IsPath(c, states, steps) && i <= |steps| && ReceiptsAgree(states, steps, k, id)
    requires StuckAt(c, states, 0, k, tx) && tx.Id() != id
    ensures StuckAt(c, states, i, k, tx)
  {
    if i > 0 {
      PathKeepsStuck(c, states, steps, i - 1, k, tx, id);
      PathStepKeepsStuck(c, states, steps, i - 1, k, tx, id);
    }
  }

  lemma PathStepKeepsStuck(
    c: Config, states: seq<State>, steps: seq<Step>, i: nat, k: Key, tx: StoredTx, id: TxId)
    requires IsPath(c, states, steps) && i < |steps| && ReceiptsAgree(states, steps, k, id)
    requires StuckAt(c, states, i, k, tx) && tx.Id() != id
    ensures StuckAt(c, states, i + 1, k, tx)
  {
    assert PathStep(c, states, steps, i);
    StepKeepsStuck(c, states[i], steps[i], states[i + 1], k, tx, id);
    NextKeepsInv(c, states[i], steps[i], states[i + 1]);
  }

  /**
   The row of a transaction whose nonce is mined stays pending for good exactly if the transaction mined is not its
   last attempt.
   */
  lemma StaysPendingIff(c: Config, s: State, k: Key, id: TxId)
    requires Inv(c, s) && s.worker == WorkerIdle
    requires k in s.rows && s.rows[k].Pending() && k.nonce < s.ChainOf(k.signer).mined
    ensures StaysPending(c, s, k, id) <==> s.rows[k].Id() != id
  {
    if s.rows[k].Id() == id {
      OwnReceiptMarks(c, s, k, id);
    } else {
      forall states: seq<State>, steps: seq<Step> |
        IsPath(c, states, steps) && states[0] == s && ReceiptsAgree(states, steps, k, id)
        ensures IsStill(states[|steps|], k, s.rows[k])
      {
        PathKeepsStuck(c, states, steps, |steps|, k, s.rows[k], id);
      }
    }
  }

  /** The three states in which a receipt of a row is found and written. */
  function ReceiptStates(s: State, tx: StoredTx, block: Block): seq<State> {
    [s.(worker := Marking([tx])), s.(worker := WritingMined(tx, block, [])),
     s.(worker := Marking([]), rows := s.rows[tx.key := WithMinedBlock(tx, block)])]
  }

  lemma ReceiptIsFound(c: Config, s: State, tx: StoredTx, block: Block)
    requires s.worker == WorkerIdle && tx.key in s.rows && s.rows[tx.key] == tx
    requires tx.key.nonce < s.ChainOf(tx.key.signer).mined
    ensures Next(c, s, WorkStep(StartMarking([tx])), ReceiptStates(s, tx, block)[0])
    ensures Next(c, ReceiptStates(s, tx, block)[0], WorkStep(Receipt(block)), ReceiptStates(s, tx, block)[1])
  {
    assert [tx][1..] == [];
  }

  lemma ReceiptIsWritten(c: Config, s: State, tx: StoredTx, block: Block)
    requires s.worker == WorkerIdle && tx.key in s.rows && s.rows[tx.key] == tx && tx.attempts > 0
    ensures Next(c, ReceiptStates(s, tx, block)[1], WorkStep(WriteMined), ReceiptStates(s, tx, block)[2])
  {
    assert PutError(s.rows, WithMinedBlock(tx, block), true).None?;
  }

  lemma OwnReceiptMarks(c: Config, s: State, k: Key, id: TxId)
    requires Inv(c, s) && s.worker == WorkerIdle && k in s.rows && s.rows[k].Pending() && s.rows[k].Id() == id
    requires k.nonce < s.ChainOf(k.signer).mined
    ensures !StaysPending(c, s, k, id)
  {
    var tx, block := s.rows[k], Block(0, 0);
    assert tx.key == k && tx.attempts > 0;
    var marking := ReceiptStates(s, tx, block);
    ReceiptIsFound(c, s, tx, block);
    ReceiptIsWritten(c, s, tx, block);
    ThreeSteps(c, s, WorkStep(StartMarking([tx])), marking[0], WorkStep(Receipt(block)), marking[1],
               WorkStep(WriteMined), marking[2]);
    MarkedAtEnd(c, s, [s, marking[0], marking[1], marking[2]],
                [WorkStep(StartMarking([tx])), WorkStep(Receipt(block)), WorkStep(WriteMined)], k, id);
  }

  lemma MarkedAtEnd(c: Config, s: State, states: seq<State>, steps: seq<Step>, k: Key, id: TxId)
    requires k in s.rows && IsPath(c, states, steps) && states[0] == s && ReceiptsAgree(states, steps, k, id)
    requires !IsStill(states[|steps|], k, s.rows[k])
    ensures !StaysPending(c, s, k, id)
  {
  }

  lemma ThreeSteps(c: Config, s: State, a: Step, t: State, b: Step, u: State, d: Step, v: State)
    requires Next(c, s, a, t) && Next(c, t, b, u) && Next(c, u, d, v)
    ensures IsPath(c, [s, t, u, v], [a, b, d])
  {
    var states, steps := [s, t, u, v], [a, b, d];
    assert PathStep(c, states, steps, 0) && PathStep(c, states, steps, 1) && PathStep(c, states, steps, 2);
  }

  /** Over the same continuations the guard of an action answers yes, at any block and for any distance. */
  ghost predicate GuardStaysBlocked(c: Config, s: State, k: Key, id: TxId, action: ServerAction) {
    forall states: seq<State>, steps: seq<Step>, block: int, distance: int ::
      IsPath(c, states, steps) && states[0] == s && ReceiptsAgree(states, steps, k, id) ==>
        ActionPendingOrRecent(states[|steps|].rows, action, block, distance, None)
  }

  lemma PendingRowBlocksAction(c: Config, s: State, k: Key, id: TxId)
    requires k in s.rows && StaysPending(c, s, k, id)
    ensures GuardStaysBlocked(c, s, k, id, s.rows[k].action)
  {
    forall states: seq<State>, steps: seq<Step>, block: int, distance: int |
      IsPath(c, states, steps) && states[0] == s && ReceiptsAgree(states, steps, k, id)
      ensures ActionPendingOrRecent(states[|steps|].rows, s.rows[k].action, block, distance, None)
    {
      var end := states[|steps|];
      assert IsStill(end, k, s.rows[k]);
      assert Blocks(end.rows[k], s.rows[k].action, block, distance, None);
    }
  }

  // ---------- A run that gets there ----------

  const ATTEMPT := Row(0, Fees(20, 1), 1, None).(action := RegisterServer)
  const NEW_FEES := Fees(40, 1)
  const BLOCK := Block(10, 1000)

  /** The registration, boosted. */
  const BOOSTED := NextAttempt(FeeMarket, ATTEMPT, NEW_FEES, BLOCK)

  function OneRow(): Rows {
    map[Key(RELAY, 0) := ATTEMPT]
  }

  function Replies(): nat -> Reply {
    _ => Reply(50 * 21000, true)
  }

  function AfterBoost(): State {
    Start(OneRow(), 1).(
      rows := map[Key(RELAY, 0) := BOOSTED], offered := {Key(RELAY, 0)}, workerTime := BLOCK.timestamp,
      resends := [Resend(Key(RELAY, 0), BLOCK.timestamp)])
  }

  lemma BoostIsAPath()
    ensures Reaches(ExampleConfig(1), Start(OneRow(), 1), AfterBoost())
  {
    var c, start, round := ExampleConfig(1), Start(OneRow(), 1), Round(RELAY, BLOCK, 0);
    assert IsNonceRange(start.rows, RELAY, 0, None, [ATTEMPT]);
    RoundIsAPath(c, start, round, [ATTEMPT], 1, Some(40), Replies());
    assert RoundedProduct(20, Ratio(1, 1)) == 20 && RoundedProduct(1, Ratio(1, 1)) == 1;
    assert NewFees(c, ATTEMPT, 1, 40) == NEW_FEES;
    LoopBoosts(Opened(c, start, round, [ATTEMPT]).(worker := Boosting(round, [ATTEMPT], NEW_FEES, 0)));
  }

  lemma LoopBoosts(looping: State)
    requires var round := Round(RELAY, BLOCK, 0);
      looping == Start(OneRow(), 1).(worker := Boosting(round, [ATTEMPT], NEW_FEES, 0), workerTime := BLOCK.timestamp)
    ensures LoopEnd(ExampleConfig(1), looping, Round(RELAY, BLOCK, 0), [ATTEMPT], NEW_FEES, 0, Replies()) == AfterBoost()
  {
    var c, round := ExampleConfig(1), Round(RELAY, BLOCK, 0);
    var turned := TurnEnd(c, looping, round, [ATTEMPT], NEW_FEES, 0, Replies()(0));
    assert turned.worker == Boosting(round, [ATTEMPT], NEW_FEES, 1);
    assert LoopEnd(c, turned, round, [ATTEMPT], NEW_FEES, 1, Replies()) == turned.(worker := WorkerIdle);
  }

  function AfterMining(): State {
    AfterBoost().(chain := map[RELAY := Counts(1, 1)])
  }

  lemma MiningIsAPath()
    ensures Reaches(ExampleConfig(1), Start(OneRow(), 1), AfterMining())
  {
    BoostIsAPath();
    assert AfterBoost().chain[RELAY := Counts(1, 1)] == AfterMining().chain;
    ReachesNext(ExampleConfig(1), Start(OneRow(), 1), AfterBoost(), ChainStep(RELAY, Counts(1, 1)), AfterMining());
  }

  /**
   In a run from a consistent start a registration is boosted, and the chain then mines the earlier attempt. From
   there on its row stays pending however the run goes on, and the guard of registrations answers yes for good.
   */
  lemma EarlierAttemptBlocksForGood()
    ensures exists states: seq<State>, steps: seq<Step> ::
      && IsRun(ExampleConfig(1), states, steps) && states[0].rows == OneRow()
      && states[|steps|].rows == map[Key(RELAY, 0) := BOOSTED]
      && states[|steps|].ChainOf(RELAY).mined == 1
      && StaysPending(ExampleConfig(1), states[|steps|], Key(RELAY, 0), ATTEMPT.Id())
      && GuardStaysBlocked(ExampleConfig(1), states[|steps|], Key(RELAY, 0), ATTEMPT.Id(), RegisterServer)
  {
    MiningIsAPath();
    StartIsInit(OneRow(), 1);
    var states, steps := RunTo(ExampleConfig(1), Start(OneRow(), 1), AfterMining());
    RunKeepsInv(ExampleConfig(1), states, steps, |steps|);
    StaysPendingIff(ExampleConfig(1), AfterMining(), Key(RELAY, 0), ATTEMPT.Id());
    PendingRowBlocksAction(ExampleConfig(1), AfterMining(), Key(RELAY, 0), ATTEMPT.Id());
  }
}
