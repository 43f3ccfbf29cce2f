/**
 Why the spacing of resends needs its hypothesis. The balance check of a rebroadcast throws into a handler
 that only logs, and the row is not stamped; if that row is the oldest, it stays due and every later one is
 resent with each new block.
 */
module SwallowedFailure {
  import opened Wrappers
  import opened StoredTransactions
  import opened TxStore
  import opened GasFees
  import opened NoncePipeline
  import opened ResendSpacing
  import opened ExampleRuns
  import opened Paths
  import opened TransactionManager

  const FEES := Fees(50, 1)

  /** Two pending transactions. */
  function TwoRows(): Rows {
    map[Key(RELAY, 0) := Row(0, FEES, 1, None), Key(RELAY, 1) := Row(1, FEES, 1, None)]
  }

  /** The balance never suffices for the first transaction. */
  function Replies(): nat -> Reply {
    i => if i == 0 then Reply(0, true) else Reply(50 * 21000, true)
  }

  /** What a round does that skips the first row and resends the second. */
  function AfterRound(s: State, second: StoredTx, block: Block): State {
    s.(rows := s.rows[second.key := NextAttempt(FeeMarket, second, second.fees, block)],
       offered := s.offered + {second.key}, workerTime := block.timestamp,
       resends := s.resends + [Resend(second.key, block.timestamp)], skipped := true, uneven := s.uneven + {RELAY})
  }

  lemma RoundSkipsFirst(s: State, second: StoredTx, block: Block)
    requires s.worker == WorkerIdle && s.workerTime <= block.timestamp && 300 <= block.timestamp
    requires s.ChainOf(RELAY).mined == 0 && second.key == Key(RELAY, 1) && second.fees == FEES
    requires second.call.gas == 21000 && s.rows == map[Key(RELAY, 0) := Row(0, FEES, 1, None), Key(RELAY, 1) := second]
    ensures Reaches(ExampleConfig(2), s, AfterRound(s, second, block))
  {
    var c, round, txs := ExampleConfig(2), Round(RELAY, block, 0), [Row(0, FEES, 1, None), second];
    assert IsNonceRange(s.rows, RELAY, 0, None, txs);
    RoundIsAPath(c, s, round, txs, 0, Some(0), Replies());
    assert RoundedProduct(50, Ratio(1, 1)) == 50 && RoundedProduct(1, Ratio(1, 1)) == 1;
    var fees := NewFees(c, txs[0], 0, 0);
    assert fees == FEES;
    LoopSkipsFirst(Opened(c, s, round, txs).(worker := Boosting(round, txs, fees, 0)), s, second, block);
  }

  lemma LoopSkipsFirst(looping: State, s: State, second: StoredTx, block: Block)
    requires second.key == Key(RELAY, 1) && second.fees == FEES && second.call.gas == 21000
    requires s.worker == WorkerIdle
    requires var round, txs := Round(RELAY, block, 0), [Row(0, FEES, 1, None), second];
      looping == s.(worker := Boosting(round, txs, FEES, 0), workerTime := block.timestamp, skipped := false)
    ensures var round, txs := Round(RELAY, block, 0), [Row(0, FEES, 1, None), second];
      LoopEnd(ExampleConfig(2), looping, round, txs, FEES, 0, Replies()) == AfterRound(s, second, block)
  {
    var c, round, txs := ExampleConfig(2), Round(RELAY, block, 0), [Row(0, FEES, 1, None), second];
    var skipped := TurnEnd(c, looping, round, txs, FEES, 0, Replies()(0));
    assert skipped == looping.(worker := Boosting(round, txs, FEES, 1), skipped := true);
    var written := TurnEnd(c, skipped, round, txs, FEES, 1, Replies()(1));
    assert written.worker == Boosting(round, txs, FEES, 2);
    assert LoopEnd(c, written, round, txs, FEES, 2, Replies()) == written.(worker := WorkerIdle);
  }

  lemma TwoRoundsAreAPath()
    ensures var first := AfterRound(Start(TwoRows(), 2), Row(1, FEES, 1, None), Block(10, 1000));
      Reaches(ExampleConfig(2), Start(TwoRows(), 2), AfterRound(first, Row(1, FEES, 2, Some(Block(10, 1000))), Block(11, 1001)))
  {
    var b1, b2, start := Block(10, 1000), Block(11, 1001), Start(TwoRows(), 2);
    var first := AfterRound(start, Row(1, FEES, 1, None), b1);
    RoundSkipsFirst(start, Row(1, FEES, 1, None), b1);
    RoundSkipsFirst(first, Row(1, FEES, 2, Some(b1)), b2);
    ReachesOn(ExampleConfig(2), start, first, AfterRound(first, Row(1, FEES, 2, Some(b1)), b2));
  }

  /** A run from a consistent start in which the second transaction is sent again one second after the last time. */
  lemma SpacingFailsWithSwallowedFailure()
    ensures exists states: seq<State>, steps: seq<Step> ::
      && IsRun(ExampleConfig(2), states, steps)
      && !Spaced(ExampleConfig(2), states[|steps|].resends, RELAY)
  {
    var start := Start(TwoRows(), 2);
    var first := AfterRound(start, Row(1, FEES, 1, None), Block(10, 1000));
    var second := AfterRound(first, Row(1, FEES, 2, Some(Block(10, 1000))), Block(11, 1001));
    TwoRoundsAreAPath();
    StartIsConsistent(TwoRows(), 2);
    StartIsInit(TwoRows(), 2);
    var states, steps := RunTo(ExampleConfig(2), start, second);
    assert !PairSpaced(ExampleConfig(2), second.resends, RELAY, 0, 1);
  }
}
