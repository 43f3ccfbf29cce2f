/**
 `replenishServer` of `RelayServer.ts` runs in the worker's round and after every relayed request. Its calls can
 interleave: each asks the store whether a top-up of the worker is under way, and only later stores its own. The
 cached balances are the same for all calls, and no top-up is mined meanwhile.
 */
module TopUpRace {
  import opened Wrappers
  import opened StoredTransactions
  import opened TxStore
  import Balances

  datatype Config = Config(
    balances: Balances.Config, funds: Balances.Funds, worker: Address, block: int, distance: int,
    withdrawalPending: bool, settlesAtOnce: bool)

  /** Where one call stands; once it has asked, it knows whether it will top up. */
  datatype Call = NotAsked | Asked(tops: bool) | Done(sent: bool)

  datatype State = State(rows: Rows, calls: seq<Call>)

  datatype Step = Ask(i: nat) | Insert(i: nat, tx: StoredTx) | Finish(i: nat) | StoreOther(tx: StoredTx)

  /** The guard's answer: a top-up of the worker is pending or recent. */
  ghost predicate UnderWay(c: Config, rows: Rows) {
    ActionPendingOrRecent(rows, ValueTransfer, c.block, c.distance, Some(c.worker))
  }

  predicate WouldTopUp(c: Config, underWay: bool) {
    Balances.TopsUp(c.balances, c.funds, Balances.Pending(c.withdrawalPending, underWay, c.settlesAtOnce))
  }

  predicate IsTopUp(c: Config, tx: StoredTx) {
    tx.action == ValueTransfer && tx.call.to == c.worker
  }

  ghost predicate Next(c: Config, s: State, step: Step, s': State) {
    match step
    case Ask(i) =>
      && i < |s.calls| && s.calls[i].NotAsked?
      && s' == s.(calls := s.calls[i := Asked(WouldTopUp(c, UnderWay(c, s.rows)))])
    case Insert(i, tx) =>
      && i < |s.calls| && s.calls[i] == Asked(true)
      && IsTopUp(c, tx) && tx.Pending() && tx.key !in s.rows
      && s' == State(s.rows[tx.key := tx], s.calls[i := Done(true)])
    case Finish(i) =>
      i < |s.calls| && s.calls[i] == Asked(false) && s' == s.(calls := s.calls[i := Done(false)])
    case StoreOther(tx) =>
      !IsTopUp(c, tx) && tx.key !in s.rows && s' == s.(rows := s.rows[tx.key := tx])
  }

  /** No top-up is under way, the worker needs one, and the funds suffice. */
  ghost predicate Init(c: Config, s: State) {
    && !UnderWay(c, s.rows) && WouldTopUp(c, false)
    && forall i :: 0 <= i < |s.calls| ==> s.calls[i].NotAsked?
  }

  ghost predicate StepAt(c: Config, states: seq<State>, steps: seq<Step>, i: nat)
    requires i < |steps| && i + 1 < |states|
  {
    Next(c, states[i], steps[i], states[i + 1])
  }

  ghost predicate IsRun(c: Config, states: seq<State>, steps: seq<Step>) {
    && |states| == |steps| + 1
    && Init(c, states[0])
    && forall i :: 0 <= i < |steps| ==> StepAt(c, states, steps, i)
  }

  ghost predicate SomeInserted(steps: seq<Step>, t: nat)
    requires t <= |steps|
  {
    exists u :: 0 <= u < t && steps[u].Insert?
  }

  // ---------- What the guard sees ----------

  lemma StoringChangesAnswer(c: Config, rows: Rows, tx: StoredTx)
    requires tx.key !in rows
    ensures IsTopUp(c, tx) && tx.Pending() ==> UnderWay(c, rows[tx.key := tx])
    ensures !IsTopUp(c, tx) ==> (UnderWay(c, rows[tx.key := tx]) <==> UnderWay(c, rows))
  {
    var rows' := rows[tx.key := tx];
    if IsTopUp(c, tx) && tx.Pending() {
      assert Blocks(rows'[tx.key], ValueTransfer, c.block, c.distance, Some(c.worker));
    }
    if k :| k in rows && Blocks(rows[k], ValueTransfer, c.block, c.distance, Some(c.worker)) {
      assert Blocks(rows'[k], ValueTransfer, c.block, c.distance, Some(c.worker));
    }
  }

  /** A stored top-up is seen by every later guard. */
  lemma StepChangesAnswer(c: Config, s: State, step: Step, s': State)
    requires Next(c, s, step, s')
    ensures UnderWay(c, s'.rows) <==> UnderWay(c, s.rows) || step.Insert?
  {
    match step {
      case Insert(_, tx) => StoringChangesAnswer(c, s.rows, tx);
      case StoreOther(tx) => StoringChangesAnswer(c, s.rows, tx);
      case _ =>
    }
  }

  lemma {:induction false} UnderWayIffInserted(c: Config, states: seq<State>, steps: seq<Step>, t: nat)
    requires IsRun(c, states, steps) && t <= |steps|
    ensures UnderWay(c, states[t].rows) <==> SomeInserted(steps, t)
  {
    if t > 0 {
      UnderWayIffInserted(c, states, steps, t - 1);
      assert StepAt(c, states, steps, t - 1);
      StepChangesAnswer(c, states[t - 1], steps[t - 1], states[t]);
    }
  }

  // ---------- Who tops up ----------

  /** A call that has asked sticks to its answer. */
  predicate Decided(call: Call, tops: bool) {
    call == Asked(tops) || call == Done(tops)
  }

  lemma {:induction false} AnswerSticks(
    c: Config, states: seq<State>, steps: seq<Step>, t: nat, end: nat, i: nat, tops: bool)
    requires IsRun(c, states, steps) && t <= end <= |steps|
    requires i < |states[t].calls| && Decided(states[t].calls[i], tops)
    ensures i < |states[end].calls| && Decided(states[end].calls[i], tops)
  {
    if t < end {
      AnswerSticks(c, states, steps, t, end - 1, i, tops);
      assert StepAt(c, states, steps, end - 1);
    }
  }

  /** A call tops up the worker exactly if no top-up had been stored when it asked. */
  lemma TopsUpIffNoneInserted(c: Config, states: seq<State>, steps: seq<Step>, t: nat, end: nat, i: nat)
    requires IsRun(c, states, steps) && t < end <= |steps| && steps[t] == Ask(i)
    requires i < |states[end].calls| && states[end].calls[i].Done?
    ensures states[end].calls[i].sent <==> !SomeInserted(steps, t)
  {
    assert StepAt(c, states, steps, t);
    UnderWayIffInserted(c, states, steps, t);
    NoTopUpWhenUnderWay(c);
    AnswerSticks(c, states, steps, t + 1, end, i, !SomeInserted(steps, t));
  }

  lemma NoTopUpWhenUnderWay(c: Config)
    ensures !WouldTopUp(c, true)
  {
  }

  /** Two calls both top up the worker exactly if both have asked before any top-up is stored. */
  lemma BothTopUpIff(
    c: Config, states: seq<State>, steps: seq<Step>, t: nat, u: nat, end: nat, i: nat, j: nat)
    requires IsRun(c, states, steps) && t < u < end <= |steps| && steps[t] == Ask(i) && steps[u] == Ask(j)
    requires i < |states[end].calls| && states[end].calls[i].Done?
    requires j < |states[end].calls| && states[end].calls[j].Done?
    ensures states[end].calls[i].sent && states[end].calls[j].sent <==> !SomeInserted(steps, u)
  {
    TopsUpIffNoneInserted(c, states, steps, t, end, i);
    TopsUpIffNoneInserted(c, states, steps, u, end, j);
  }

  // ---------- An example ----------

  const WORKER := Address(2)

  function ExampleConfig(): Config {
    Config(Balances.Config(10, 20, 5, 10, None), Balances.Funds(30, 0, 0, 0, 0), WORKER, 100, 12, false, true)
  }

  function TopUp(nonce: nat): StoredTx {
    StoredTx(Key(Address(1), nonce), Call(WORKER, 21000, CallData(0, 0), 10), Fees(1, 1), ValueTransfer,
             Block(100, 0), 1, None, None)
  }

  function ExampleSteps(): seq<Step> {
    [Ask(0), Ask(1), Insert(0, TopUp(0)), Insert(1, TopUp(1))]
  }

  function ExampleStates(): seq<State> {
    [State(map[], [NotAsked, NotAsked]),
     State(map[], [Asked(true), NotAsked]),
     State(map[], [Asked(true), Asked(true)]),
     State(map[TopUp(0).key := TopUp(0)], [Done(true), Asked(true)]),
     State(map[TopUp(0).key := TopUp(0), TopUp(1).key := TopUp(1)], [Done(true), Done(true)])]
  }

  lemma ExampleStep(i: nat)
    requires i < 4
    ensures StepAt(ExampleConfig(), ExampleStates(), ExampleSteps(), i)
  {
    var states := ExampleStates();
    assert !UnderWay(ExampleConfig(), map[]);
    if i == 3 {
      assert states[3].rows[TopUp(1).key := TopUp(1)] == states[4].rows;
    }
  }

  /** The worker's round and a request both find no top-up under way, and both store one. */
  lemma WorkerCanBeToppedUpTwice()
    ensures exists states: seq<State>, steps: seq<Step> ::
      && IsRun(ExampleConfig(), states, steps)
      && states[|steps|].calls == [Done(true), Done(true)]
      && |states[|steps|].rows| == 2
  {
    var states, steps := ExampleStates(), ExampleSteps();
    assert !UnderWay(ExampleConfig(), map[]);
    forall i | 0 <= i < |steps|
      ensures StepAt(ExampleConfig(), states, steps, i)
    {
      ExampleStep(i);
    }
    assert IsRun(ExampleConfig(), states, steps);
    assert states[|steps|].rows.Keys == {TopUp(0).key, TopUp(1).key};
    assert |states[|steps|].rows| == |states[|steps|].rows.Keys|;
  }
}
