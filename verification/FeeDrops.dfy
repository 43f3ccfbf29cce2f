/** When a boost round lowers a fee of a later transaction, and a run in which it lowers one of each kind. */
module FeeDrops {
  import opened Wrappers
  import opened StoredTransactions
  import opened TxStore
  import opened GasFees
  import opened NoncePipeline
  import opened ResendSpacing
  import opened Paths
  import opened TransactionManager
  import opened ExampleRuns

  /** An attempt lowers the maximum fee exactly if only the priority fee was too low. */
  lemma AttemptLowersMaxIff(c: Config, tx: StoredTx, fees: Fees, block: Block)
    ensures Attempt(c, tx, fees, block).fees.max < tx.fees.max
       <==> tx.fees.priority < fees.priority && fees.max < tx.fees.max
  {
  }

  /** And it lowers the priority fee exactly if only the maximum fee was too low. */
  lemma AttemptLowersPriorityIff(c: Config, tx: StoredTx, fees: Fees, block: Block)
    requires c.kind.FeeMarket?
    ensures Attempt(c, tx, fees, block).fees.priority < tx.fees.priority
       <==> tx.fees.max < fees.max && fees.priority < tx.fees.priority
  {
  }

  /** The three pending transactions: the oldest, one with a higher maximum fee, one with a higher priority fee. */
  const OLDEST := Row(0, Fees(20, 1), 1, None)
  const HIGH_MAX := Row(1, Fees(40, 1), 1, None)
  const HIGH_PRIORITY := Row(2, Fees(10, 5), 1, None)
  const NEW_FEES := Fees(20, 2)
  const BLOCK := Block(10, 1000)

  function ThreeRows(): Rows {
    map[Key(RELAY, 0) := OLDEST, Key(RELAY, 1) := HIGH_MAX, Key(RELAY, 2) := HIGH_PRIORITY]
  }

  function Replies(): nat -> Reply {
    _ => Reply(50 * 21000, true)
  }

  function After(): State {
    RoundEnd(ExampleConfig(3), Start(ThreeRows(), 3), Round(RELAY, BLOCK, 0), Txs(),
             2, Some(0), Replies())
  }

  lemma RoundRuns()
    ensures Reaches(ExampleConfig(3), Start(ThreeRows(), 3), After())
  {
    var c, start, txs := ExampleConfig(3), Start(ThreeRows(), 3), Txs();
    assert IsNonceRange(start.rows, RELAY, 0, None, txs);
    RoundIsAPath(c, start, Round(RELAY, BLOCK, 0), txs, 2, Some(0), Replies());
  }

  function Txs(): seq<StoredTx> {
    [OLDEST, HIGH_MAX, HIGH_PRIORITY]
  }

  /** A turn of the loop, for a row that passes the checks and is underpriced. */
  lemma BoostTurn(s: State, i: nat)
    requires i < 3 && s.worker == Boosting(Round(RELAY, BLOCK, 0), Txs(), NEW_FEES, i)
    ensures var t := TurnEnd(ExampleConfig(3), s, Round(RELAY, BLOCK, 0), Txs(), NEW_FEES, i, Reply(50 * 21000, true));
      && t.worker == Boosting(Round(RELAY, BLOCK, 0), Txs(), NEW_FEES, i + 1)
      && HasNewFees(t.rows, i) && forall k: nat :: HasNewFees(s.rows, k) ==> HasNewFees(t.rows, k)
  {
    assert Txs()[i].key == Key(RELAY, i);
  }

  /** From turn `i` on, all the rows that are left get the new fees and the others keep theirs. */
  lemma {:induction false} LoopBoostsAll(s: State, i: nat)
    requires i <= 3 && s.worker == Boosting(Round(RELAY, BLOCK, 0), Txs(), NEW_FEES, i)
    requires forall k: nat :: k < i ==> HasNewFees(s.rows, k)
    ensures var end := LoopEnd(ExampleConfig(3), s, Round(RELAY, BLOCK, 0), Txs(), NEW_FEES, i, Replies());
      forall k: nat :: k < 3 ==> HasNewFees(end.rows, k)
    decreases 3 - i
  {
    if i < 3 {
      BoostTurn(s, i);
      var t := TurnEnd(ExampleConfig(3), s, Round(RELAY, BLOCK, 0), Txs(), NEW_FEES, i, Replies()(i));
      LoopBoostsAll(t, i + 1);
    }
  }

  predicate HasNewFees(rows: Rows, k: nat) {
    Key(RELAY, k) in rows && rows[Key(RELAY, k)].fees == NEW_FEES
  }

  lemma ResolvedPair()
    ensures NewFees(ExampleConfig(3), OLDEST, 2, 0) == NEW_FEES
  {
    assert RoundedProduct(20, Ratio(1, 1)) == 20 && RoundedProduct(1, Ratio(1, 1)) == 1;
  }

  function Looping(): State {
    Opened(ExampleConfig(3), Start(ThreeRows(), 3), Round(RELAY, BLOCK, 0), Txs()).(
      worker := Boosting(Round(RELAY, BLOCK, 0), Txs(), NEW_FEES, 0))
  }

  /** The oldest is due, so the round goes through its loop. */
  lemma RoundGoesAhead()
    ensures After() == LoopEnd(ExampleConfig(3), Looping(), Round(RELAY, BLOCK, 0), Txs(), NEW_FEES, 0, Replies())
  {
    ResolvedPair();
    assert AfterLoading(ExampleConfig(3), Round(RELAY, BLOCK, 0), Txs()) == Pricing(Round(RELAY, BLOCK, 0), Txs());
  }

  /** Each of the three is resent with the one new pair of fees. */
  lemma AllGetNewFees()
    ensures HasNewFees(After().rows, 1) && HasNewFees(After().rows, 2)
  {
    RoundGoesAhead();
    LoopBoostsAll(Looping(), 0);
  }

  /** A run from a consistent start in which a boost lowers one transaction's maximum and another's priority fee. */
  lemma LaterFeesCanDrop()
    ensures exists states: seq<State>, steps: seq<Step> ::
      && IsRun(ExampleConfig(3), states, steps)
      && FeesDropped(states[0].rows, states[|steps|].rows)
  {
    StartIsConsistent(ThreeRows(), 3);
    StartIsInit(ThreeRows(), 3);
    RoundRuns();
    AllGetNewFees();
    TheseFeesDropped(After().rows);
    var states, steps := RunTo(ExampleConfig(3), Start(ThreeRows(), 3), After());
  }

  lemma TheseFeesDropped(rows: Rows)
    requires HasNewFees(rows, 1) && HasNewFees(rows, 2)
    ensures FeesDropped(ThreeRows(), rows)
  {
    assert Key(RELAY, 1) in ThreeRows() && Key(RELAY, 2) in ThreeRows();
  }

  ghost predicate FeesDropped(rows: Rows, rows': Rows) {
    && (exists k :: k in rows && k in rows' && rows'[k].fees.max < rows[k].fees.max)
    && (exists k :: k in rows && k in rows' && rows'[k].fees.priority < rows[k].fees.priority)
  }
}
