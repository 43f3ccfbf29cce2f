/** Where the example runs start: one relay key with a few pending transactions that an earlier process has left. */
module ExampleRuns {
  import opened Wrappers
  import opened StoredTransactions
  import opened TxStore
  import opened GasFees
  import opened NoncePipeline
  import opened ResendSpacing

  const RELAY := Address(1)

  function ExampleConfig(n: nat): Config {
    Config(FeeMarket, Ratio(1, 1), 50, 300, map[RELAY := n])
  }

  function Row(nonce: nat, fees: Fees, attempts: nat, boost: Option<Block>): StoredTx {
    StoredTx(Key(RELAY, nonce), Call(Address(2), 21000, CallData(0, nonce), 0), fees, RelayCall, Block(1, 0),
             attempts, boost, None)
  }

  function Start(rows: Rows, n: nat): State {
    State(Server(map[], None, map[], map[], map[]), rows, map[RELAY := Counts(0, n)], {}, WorkerIdle, 0, [], false, {})
  }

  /** The rows are those of the first `n` nonces, never resent and not mined. */
  ghost predicate AreInherited(rows: Rows, n: nat) {
    && (forall k :: k in rows ==> k.signer == RELAY && k.nonce < n && IsFirstAttempt(k, rows[k]))
    && (forall i: nat :: i < n ==> Key(RELAY, i) in rows)
  }

  predicate IsFirstAttempt(k: Key, tx: StoredTx) {
    tx.key == k && tx.attempts > 0 && tx.boostBlock.None? && tx.minedBlock.None?
  }

  lemma StartIsConsistent(rows: Rows, n: nat)
    requires AreInherited(rows, n)
    ensures ConsistentWithChain(ExampleConfig(n), Start(rows, n))
  {
    var c, s := ExampleConfig(n), Start(rows, n);
    forall a
      ensures s.ChainOf(a).mined <= s.ChainOf(a).pending == Inherited(c, a)
      ensures forall i: nat :: s.ChainOf(a).mined <= i < Inherited(c, a) ==> Key(a, i) in s.rows
    {
    }
  }

  lemma StartIsInit(rows: Rows, n: nat)
    requires AreInherited(rows, n)
    ensures Init(ExampleConfig(n), Start(rows, n))
  {
    StartIsConsistent(rows, n);
  }
}
