/** What every reachable state of the outgoing-transaction protocol keeps about nonces and the store. */
module NonceSafety {
  import opened Wrappers
  import opened StoredTransactions
  import opened TxStore
  import opened NoncePipeline

  /** The mutex holder has taken a nonce of `a` that is not in the store yet. */
  predicate InFlight(server: Server, a: Address) {
    server.mutex.Some? &&
    var pc := server.Sender(server.mutex.value);
    (pc.Storing? || pc.Inserting?) && pc.tx.key.signer == a
  }

  /** Everything the protocol counts for one signer. */
  datatype Book = Book(inherited: nat, nonce: nat, inFlight: bool, chain: Counts, handed: seq<nat>) {
    /** The nonce of the next row: one past everything stored so far. */
    function Next(): int {
      if nonce < inherited then inherited else if inFlight then nonce - 1 else nonce
    }
  }

  function BookOf(c: Config, s: State, a: Address): Book {
    Book(Inherited(c, a), s.server.Nonce(a), InFlight(s.server, a), s.ChainOf(a), s.server.Handed(a))
  }

  // ---------- The invariant ----------

  ghost predicate MutexInv(s: State) {
    forall p: nat :: s.server.Sender(p).HoldsMutex() <==> s.server.mutex == Some(p)
  }

  /**
   Memory has either not been synchronised with the chain yet, or counts what was handed out, which is
   consecutive from the inherited count on; the chain never knows more than has been stored.
   */
  ghost predicate BookInv(b: Book) {
    && (b.inFlight ==> b.inherited < b.nonce)
    && |b.handed| == (if b.nonce < b.inherited then 0 else b.nonce - b.inherited)
    && (forall i :: 0 <= i < |b.handed| ==> b.handed[i] == b.inherited + i)
    && b.chain.mined <= b.chain.pending
    && b.inherited <= b.chain.pending <= b.Next()
  }

  /** The stored nonces from the mined count on are exactly those below the next one. */
  ghost predicate NoGap(b: Book, a: Address, rows: Rows) {
    forall n: nat :: b.chain.mined <= n ==> (Key(a, n) in rows <==> n < b.Next())
  }

  predicate RowInv(b: Book, row: StoredTx) {
    row.key.nonce < b.Next() && (row.minedBlock.Some? ==> row.key.nonce < b.chain.mined)
  }

  ghost predicate AccountInv(c: Config, s: State, a: Address) {
    BookInv(BookOf(c, s, a)) && NoGap(BookOf(c, s, a), a, s.rows)
  }

  ghost predicate StoreInv(c: Config, s: State) {
    && WellKeyed(s.rows)
    && (forall a :: AccountInv(c, s, a))
    && (forall k :: k in s.rows ==> RowInv(BookOf(c, s, k.signer), s.rows[k]))
    && (forall k :: k in s.offered ==> k.nonce < BookOf(c, s, k.signer).Next())
  }

  predicate TakenInv(b: Book, tx: StoredTx) {
    b.inherited < b.nonce && tx.key.nonce == b.nonce - 1
    && tx.attempts == 1 && tx.minedBlock.None? && tx.boostBlock.None?
  }

  ghost predicate SenderInv(c: Config, s: State, pc: Sender) {
    match pc
    case Polled(request, count) =>
      var b := BookOf(c, s, request.signer);
      b.inherited <= count <= b.Next()
    case Numbered(request, nonce) =>
      var b := BookOf(c, s, request.signer);
      b.inherited <= nonce == b.nonce
    case Storing(tx) => TakenInv(BookOf(c, s, tx.key.signer), tx)
    case Inserting(tx) => TakenInv(BookOf(c, s, tx.key.signer), tx)
    case Broadcasting(tx) => tx.key.nonce < BookOf(c, s, tx.key.signer).Next()
    case Answering(tx) => tx.key.nonce < BookOf(c, s, tx.key.signer).Next()
    case Refused => false
    case _ => true
  }

  ghost predicate PollerInv(c: Config, s: State, poller: Poller) {
    poller.PollerReply? ==>
      var b := BookOf(c, s, poller.signer);
      b.inherited <= poller.count <= b.Next()
  }

  ghost predicate SendersInv(c: Config, s: State) {
    && (forall p: nat :: SenderInv(c, s, s.server.Sender(p)))
    && (forall q: nat :: PollerInv(c, s, s.server.Poller(q)))
  }

  /** The snapshot of a boost round from position `i` on is still what the store holds, without a hole. */
  ghost predicate Snapshot(rows: Rows, round: Round, txs: seq<StoredTx>, i: nat) {
    && (forall j :: 0 <= j < |txs| ==> txs[j].key == Key(round.signer, round.mined + j) && txs[j].key in rows)
    && (forall j :: i <= j < |txs| ==> rows[txs[j].key] == txs[j])
    && (forall j :: 0 <= j < |txs| ==> txs[j].attempts > 0)
  }

  /** Nothing between the mined count a round has read and the next nonce is missing. */
  ghost predicate NothingMissing(rows: Rows, a: Address, from: nat, next: int) {
    forall n: nat :: from <= n < next ==> Key(a, n) in rows
  }

  ghost predicate WorkerInv(c: Config, s: State) {
    match s.worker
    case WorkerIdle => true
    case Marking(todo) => Lists(s.rows, todo)
    case WritingMined(tx, _, todo) =>
      Lists(s.rows, [tx] + todo) && tx.key.nonce < s.ChainOf(tx.key.signer).mined
    case Counted(round) =>
      && round.mined <= s.ChainOf(round.signer).mined
      && NothingMissing(s.rows, round.signer, round.mined, BookOf(c, s, round.signer).Next())
    case Pricing(round, txs) => txs != [] && Snapshot(s.rows, round, txs, 0)
    case Boosting(round, txs, _, i) => i <= |txs| && txs != [] && Snapshot(s.rows, round, txs, i)
    case Resending(round, txs, _, i) => i < |txs| && Snapshot(s.rows, round, txs, i + 1)
    case MissingNonce => false
  }

  ghost predicate Inv(c: Config, s: State) {
    MutexInv(s) && StoreInv(c, s) && SendersInv(c, s) && WorkerInv(c, s)
  }

  lemma InitEstablishesInv(c: Config, s: State)
    requires Init(c, s)
    ensures Inv(c, s)
  {
    forall p: nat
      ensures s.server.Sender(p).HoldsMutex() <==> s.server.mutex == Some(p)
    {
    }
    forall a
      ensures BookOf(c, s, a).Next() == Inherited(c, a) && AccountInv(c, s, a)
    {
    }
  }

  // ---------- Frames ----------

  /** The books of all signers but one are untouched, and that one has not gone back. */
  ghost predicate BooksGrow(c: Config, s: State, s': State, a: Address) {
    && (forall b :: b != a ==> BookOf(c, s', b) == BookOf(c, s, b))
    && BookOf(c, s', a).Next() >= BookOf(c, s, a).Next()
    && BookOf(c, s', a).chain.mined >= BookOf(c, s, a).chain.mined
  }

  /** What has to be shown of a step that touches one signer's book and keeps every row or adds one. */
  lemma StoreInvFrame(c: Config, s: State, s': State, a: Address)
    requires StoreInv(c, s) && BooksGrow(c, s, s', a)
    requires forall k :: k in s.rows ==> k in s'.rows && s'.rows[k] == s.rows[k]
    requires forall k :: k in s'.rows && k !in s.rows ==>
      k.signer == a && s'.rows[k].key == k && s'.rows[k].attempts > 0 && RowInv(BookOf(c, s', a), s'.rows[k])
    requires forall k :: k in s'.offered && k !in s.offered ==> k.nonce < BookOf(c, s', k.signer).Next()
    requires AccountInv(c, s', a)
    ensures StoreInv(c, s')
  {
    forall b
      ensures AccountInv(c, s', b)
    {
      assert AccountInv(c, s, b);
      if b != a {
        OtherAccountFrame(c, s, s', b);
      }
    }
    forall k | k in s'.rows
      ensures RowInv(BookOf(c, s', k.signer), s'.rows[k])
    {
      if k in s.rows {
        assert RowInv(BookOf(c, s, k.signer), s.rows[k]);
      }
    }
  }

  lemma OtherAccountFrame(c: Config, s: State, s': State, b: Address)
    requires AccountInv(c, s, b) && BookOf(c, s', b) == BookOf(c, s, b)
    requires forall n: nat :: Key(b, n) in s'.rows <==> Key(b, n) in s.rows
    ensures AccountInv(c, s', b)
  {
  }

  predicate KeepsNonce(c: Config, s: State, s': State, a: Address) {
    Inherited(c, a) <= s.server.Nonce(a) ==> s'.server.Nonce(a) == s.server.Nonce(a)
  }

  lemma SendersFrame(c: Config, s: State, s': State, p: nat, q: nat, a: Address)
    requires SendersInv(c, s) && BooksGrow(c, s, s', a)
    requires forall r: nat :: r != p ==> s'.server.Sender(r) == s.server.Sender(r)
    requires forall r: nat :: r != q ==> s'.server.Poller(r) == s.server.Poller(r)
    requires forall r: nat :: r != p && s.server.Sender(r).HoldsMutex() ==> KeepsNonce(c, s, s', a)
    requires SenderInv(c, s', s'.server.Sender(p)) && PollerInv(c, s', s'.server.Poller(q))
    ensures SendersInv(c, s')
  {
    forall r: nat
      ensures SenderInv(c, s', s'.server.Sender(r))
    {
      assert SenderInv(c, s, s.server.Sender(r));
    }
    forall r: nat
      ensures PollerInv(c, s', s'.server.Poller(r))
    {
      assert PollerInv(c, s, s.server.Poller(r));
    }
  }

  /** The worker does not mind new rows of a signer, nor its mined count growing. */
  lemma WorkerFrame(c: Config, s: State, s': State, a: Address)
    requires WorkerInv(c, s) && s'.worker == s.worker && BooksGrow(c, s, s', a)
    requires forall k :: k in s.rows ==> k in s'.rows && s'.rows[k] == s.rows[k]
    requires NoGap(BookOf(c, s', a), a, s'.rows)
    requires forall n: nat :: BookOf(c, s, a).Next() <= n < BookOf(c, s', a).Next() ==> Key(a, n) in s'.rows
    ensures WorkerInv(c, s')
  {
    assert forall b :: s'.ChainOf(b) == BookOf(c, s', b).chain && s.ChainOf(b) == BookOf(c, s, b).chain;
  }

  /** How a step moves the mutex, given whether its process holds it before and after. */
  predicate MutexMoves(p: nat, before: bool, after: bool, mutex: Option<nat>, mutex': Option<nat>) {
    if before && !after then mutex' == None
    else if !before && after then mutex == None && mutex' == Some(p)
    else mutex' == mutex
  }

  /** What any step of a send leaves alone. */
  lemma SendStepFrame(c: Config, s: State, p: nat, step: SendStep, s': State)
    requires SenderNext(c, s, p, step, s')
    ensures s'.server.senders == s.server.senders[p := s'.server.Sender(p)]
    ensures s'.server.pollers == s.server.pollers && s'.worker == s.worker && s'.chain == s.chain
  {
  }

  lemma SendStepMovesMutex(c: Config, s: State, p: nat, step: SendStep, s': State)
    requires SenderNext(c, s, p, step, s')
    ensures MutexMoves(p, s.server.Sender(p).HoldsMutex(), s'.server.Sender(p).HoldsMutex(), s.server.mutex, s'.server.mutex)
  {
  }

  lemma MutexStep(c: Config, s: State, p: nat, step: SendStep, s': State)
    requires MutexInv(s) && SenderNext(c, s, p, step, s')
    ensures MutexInv(s')
    ensures forall r: nat :: r != p ==> s'.server.Sender(r) == s.server.Sender(r)
    ensures forall r: nat :: s'.server.Poller(r) == s.server.Poller(r)
    ensures s.server.Sender(p).HoldsMutex() <==> s.server.mutex == Some(p)
    ensures s'.worker == s.worker && s'.chain == s.chain
  {
    SendStepFrame(c, s, p, step, s');
    SendStepMovesMutex(c, s, p, step, s');
    assert s.server.Sender(p).HoldsMutex() <==> s.server.mutex == Some(p);
    forall r: nat
      ensures r != p ==> s'.server.Sender(r) == s.server.Sender(r)
      ensures s'.server.Sender(r).HoldsMutex() <==> s'.server.mutex == Some(r)
    {
      assert s.server.Sender(r).HoldsMutex() <==> s.server.mutex == Some(r);
    }
  }

  /** What has to be shown of a step of send `p`, of poller `q` or of the chain that touches one signer's book. */
  lemma OneBookFrame(c: Config, s: State, s': State, p: nat, q: nat, a: Address)
    requires Inv(c, s) && MutexInv(s') && s'.worker == s.worker
    requires BooksGrow(c, s, s', a) && AccountInv(c, s', a)
    requires s'.rows == s.rows && BookOf(c, s', a).Next() == BookOf(c, s, a).Next()
    requires forall k :: k in s'.offered && k !in s.offered ==> k.nonce < BookOf(c, s', k.signer).Next()
    requires forall r: nat :: r != p ==> s'.server.Sender(r) == s.server.Sender(r)
    requires forall r: nat :: r != q ==> s'.server.Poller(r) == s.server.Poller(r)
    requires forall r: nat :: r != p && s.server.Sender(r).HoldsMutex() ==> KeepsNonce(c, s, s', a)
    requires SenderInv(c, s', s'.server.Sender(p)) && PollerInv(c, s', s'.server.Poller(q))
    ensures Inv(c, s')
  {
    StoreInvFrame(c, s, s', a);
    SendersFrame(c, s, s', p, q, a);
    WorkerFrame(c, s, s', a);
  }

  lemma OthersHoldNoMutex(s: State, p: nat)
    requires MutexInv(s) && s.server.Sender(p).HoldsMutex()
    ensures s.server.mutex == Some(p)
    ensures forall r: nat :: r != p ==> !s.server.Sender(r).HoldsMutex()
  {
  }

  // ---------- Steps of a send ----------

  lemma QuietSendStep(c: Config, s: State, p: nat, step: SendStep, s': State)
    requires Inv(c, s) && SenderNext(c, s, p, step, s')
    requires !step.ApplyPoll? && !step.TakeNonce? && !step.Insert?
    ensures Inv(c, s')
  {
    MutexStep(c, s, p, step, s');
    QuietStepKeepsBooks(c, s, p, step, s');
    var a := if step.PendingCountArrives? then s.server.Sender(p).request.signer else Address(0);
    assert SenderInv(c, s, s.server.Sender(p)) && PollerInv(c, s, s.server.Poller(0)) && AccountInv(c, s, a);
    OneBookFrame(c, s, s', p, 0, a);
  }

  lemma QuietStepKeepsBooks(c: Config, s: State, p: nat, step: SendStep, s': State)
    requires MutexInv(s) && SenderNext(c, s, p, step, s')
    requires !step.ApplyPoll? && !step.TakeNonce? && !step.Insert?
    ensures forall a :: BookOf(c, s', a) == BookOf(c, s, a)
  {
    assert s.server.Sender(p).HoldsMutex() <==> s.server.mutex == Some(p);
    forall a
      ensures InFlight(s'.server, a) == InFlight(s.server, a)
    {
    }
  }

  /** A poll reply that is not above the next nonce changes memory only when it synchronises it. */
  lemma PollKeepsBook(b: Book, count: nat)
    requires BookInv(b) && b.inherited <= count <= b.Next()
    ensures var b' := b.(nonce := PolledNonce(b.nonce, count));
      && BookInv(b') && b'.Next() == b.Next() && b.inherited <= b'.nonce
      && (b.inherited <= b.nonce ==> b' == b)
  {
  }

  /** What applying a poll reply leaves of the accounts. */
  ghost predicate Polls(c: Config, s: State, s': State, a: Address, count: nat) {
    && s'.rows == s.rows && s'.chain == s.chain && s'.offered == s.offered && s'.worker == s.worker
    && s'.server.nonces == s.server.nonces[a := PolledNonce(s.server.Nonce(a), count)]
    && s'.server.handed == s.server.handed
    && forall b :: InFlight(s'.server, b) == InFlight(s.server, b)
  }

  lemma PollKeepsAccounts(c: Config, s: State, s': State, a: Address, count: nat)
    requires AccountInv(c, s, a) && Polls(c, s, s', a, count)
    requires BookOf(c, s, a).inherited <= count <= BookOf(c, s, a).Next()
    ensures AccountInv(c, s', a) && BooksGrow(c, s, s', a) && KeepsNonce(c, s, s', a)
    ensures BookOf(c, s', a).Next() == BookOf(c, s, a).Next()
    ensures BookOf(c, s', a) == BookOf(c, s, a).(nonce := PolledNonce(s.server.Nonce(a), count))
    ensures BookOf(c, s', a).inherited <= s'.server.Nonce(a)
  {
    PollKeepsBook(BookOf(c, s, a), count);
  }

  lemma ApplyPollStep(c: Config, s: State, p: nat, s': State)
    requires Inv(c, s) && SenderNext(c, s, p, ApplyPoll, s')
    ensures Inv(c, s')
  {
    var a, count := s.server.Sender(p).request.signer, s.server.Sender(p).count;
    MutexStep(c, s, p, ApplyPoll, s');
    assert SenderInv(c, s, s.server.Sender(p)) && PollerInv(c, s, s.server.Poller(0)) && AccountInv(c, s, a);
    OthersHoldNoMutex(s, p);
    PollKeepsAccounts(c, s, s', a, count);
    OneBookFrame(c, s, s', p, 0, a);
  }

  lemma TakeNonceStep(c: Config, s: State, p: nat, s': State)
    requires Inv(c, s) && SenderNext(c, s, p, TakeNonce, s')
    ensures Inv(c, s')
  {
    var a := s.server.Sender(p).request.signer;
    MutexStep(c, s, p, TakeNonce, s');
    OthersHoldNoMutex(s, p);
    TakingKeepsAccounts(c, s, p, s');
    assert PollerInv(c, s, s.server.Poller(0));
    OneBookFrame(c, s, s', p, 0, a);
  }

  lemma TakingKeepsAccounts(c: Config, s: State, p: nat, s': State)
    requires StoreInv(c, s) && SendersInv(c, s)
    requires SenderNext(c, s, p, TakeNonce, s') && s.server.mutex == Some(p)
    ensures var a := s.server.Sender(p).request.signer;
      && AccountInv(c, s', a) && BooksGrow(c, s, s', a)
      && BookOf(c, s', a).Next() == BookOf(c, s, a).Next()
      && SenderInv(c, s', s'.server.Sender(p))
  {
    var a := s.server.Sender(p).request.signer;
    assert SenderInv(c, s, s.server.Sender(p)) && AccountInv(c, s, a);
    TakingTouchesOneBook(c, s, p, s');
    TakingKeepsBook(BookOf(c, s, a));
  }

  lemma TakingTouchesOneBook(c: Config, s: State, p: nat, s': State)
    requires SenderNext(c, s, p, TakeNonce, s') && s.server.mutex == Some(p)
    ensures s'.rows == s.rows && s'.chain == s.chain
    ensures var a := s.server.Sender(p).request.signer;
      var b := BookOf(c, s, a);
      && BookOf(c, s', a) == b.(nonce := b.nonce + 1, inFlight := true, handed := b.handed + [s.server.Sender(p).nonce])
      && (forall o :: o != a ==> BookOf(c, s', o) == BookOf(c, s, o))
      && !b.inFlight
      && s'.server.Sender(p) == Storing(FirstRow(c, s.server.Sender(p).request, s.server.Sender(p).nonce))
  {
  }

  lemma TakingKeepsBook(b: Book)
    requires BookInv(b) && b.inherited <= b.nonce && !b.inFlight
    ensures var b' := b.(nonce := b.nonce + 1, inFlight := true, handed := b.handed + [b.nonce]);
      BookInv(b') && b'.Next() == b.Next()
  {
  }

  /** The row about to be inserted has a free key, so the unique index cannot refuse it. */
  lemma InsertNeverCollides(c: Config, s: State, p: nat)
    requires Inv(c, s) && s.server.Sender(p).Inserting?
    ensures PutError(s.rows, s.server.Sender(p).tx, false) == None
    ensures s.server.Sender(p).tx.key.nonce == BookOf(c, s, s.server.Sender(p).tx.key.signer).Next()
    ensures s.server.Sender(p).tx.key !in s.rows
  {
    var tx := s.server.Sender(p).tx;
    assert SenderInv(c, s, s.server.Sender(p));
    OthersHoldNoMutex(s, p);
    assert BookOf(c, s, tx.key.signer).inFlight;
    assert tx.key.nonce == BookOf(c, s, tx.key.signer).Next();
    NextIsFree(c, s, tx.key);
  }

  lemma NextIsFree(c: Config, s: State, k: Key)
    requires StoreInv(c, s) && BookOf(c, s, k.signer).Next() <= k.nonce
    ensures k !in s.rows && k !in s.offered
  {
    assert k in s.rows ==> RowInv(BookOf(c, s, k.signer), s.rows[k]);
  }

  lemma InsertKeepsAccounts(c: Config, s: State, p: nat, s': State)
    requires Inv(c, s) && SenderNext(c, s, p, Insert, s') && MutexInv(s')
    requires PutError(s.rows, s.server.Sender(p).tx, false) == None
    ensures var tx := s.server.Sender(p).tx;
      && s'.rows == s.rows[tx.key := tx] && s'.offered == s.offered && s'.server.nonces == s.server.nonces
      && BooksGrow(c, s, s', tx.key.signer) && AccountInv(c, s', tx.key.signer)
      && RowInv(BookOf(c, s', tx.key.signer), tx)
      && BookOf(c, s', tx.key.signer).Next() == tx.key.nonce + 1
  {
    var tx := s.server.Sender(p).tx;
    var b := BookOf(c, s, tx.key.signer);
    OthersHoldNoMutex(s, p);
    assert SenderInv(c, s, s.server.Sender(p)) && AccountInv(c, s, tx.key.signer);
    assert BookOf(c, s', tx.key.signer) == b.(inFlight := false);
  }

  lemma InsertStep(c: Config, s: State, p: nat, s': State)
    requires Inv(c, s) && SenderNext(c, s, p, Insert, s')
    ensures Inv(c, s')
  {
    var tx := s.server.Sender(p).tx;
    InsertNeverCollides(c, s, p);
    MutexStep(c, s, p, Insert, s');
    InsertKeepsAccounts(c, s, p, s');
    assert SenderInv(c, s, s.server.Sender(p)) && SenderInv(c, s', s'.server.Sender(p));
    NewRowKeepsStore(c, s, s', tx);
    NewRowKeepsSenders(c, s, s', p, tx);
    NewRowKeepsWorker(c, s, s', tx);
  }

  ghost predicate AddsRow(c: Config, s: State, s': State, tx: StoredTx) {
    && tx.key !in s.rows && s'.rows == s.rows[tx.key := tx] && tx.attempts > 0
    && s'.offered == s.offered && s'.server.nonces == s.server.nonces && s'.worker == s.worker
    && BooksGrow(c, s, s', tx.key.signer) && AccountInv(c, s', tx.key.signer)
    && RowInv(BookOf(c, s', tx.key.signer), tx)
    && BookOf(c, s', tx.key.signer).Next() == BookOf(c, s, tx.key.signer).Next() + 1 == tx.key.nonce + 1
  }

  lemma NewRowKeepsStore(c: Config, s: State, s': State, tx: StoredTx)
    requires StoreInv(c, s) && AddsRow(c, s, s', tx)
    ensures StoreInv(c, s')
  {
    StoreInvFrame(c, s, s', tx.key.signer);
  }

  lemma NewRowKeepsWorker(c: Config, s: State, s': State, tx: StoredTx)
    requires WorkerInv(c, s) && AddsRow(c, s, s', tx)
    ensures WorkerInv(c, s')
  {
    assert tx.key == Key(tx.key.signer, tx.key.nonce);
    assert forall k :: k in s.rows ==> k in s'.rows && s'.rows[k] == s.rows[k];
    WorkerFrame(c, s, s', tx.key.signer);
  }

  lemma NewRowKeepsSenders(c: Config, s: State, s': State, p: nat, tx: StoredTx)
    requires SendersInv(c, s) && AddsRow(c, s, s', tx)
    requires forall r: nat :: r != p ==> s'.server.Sender(r) == s.server.Sender(r)
    requires forall r: nat :: s'.server.Poller(r) == s.server.Poller(r)
    requires SenderInv(c, s', s'.server.Sender(p))
    ensures SendersInv(c, s')
  {
    assert PollerInv(c, s, s.server.Poller(0));
    SendersFrame(c, s, s', p, 0, tx.key.signer);
  }

  // ---------- The other processes ----------

  lemma PollerReadStep(c: Config, s: State, q: nat, a: Address, s': State)
    requires Inv(c, s) && PollerNext(s, q, ReadPendingCount(a), s')
    ensures Inv(c, s')
  {
    assert SenderInv(c, s, s.server.Sender(0)) && AccountInv(c, s, a);
    assert forall p: nat :: s'.server.Sender(p) == s.server.Sender(p);
    assert forall b :: BookOf(c, s', b) == BookOf(c, s, b);
    OneBookFrame(c, s, s', 0, q, a);
  }

  lemma PollerApplyStep(c: Config, s: State, q: nat, s': State)
    requires Inv(c, s) && PollerNext(s, q, ApplyReply, s')
    ensures Inv(c, s')
  {
    var a, count := s.server.Poller(q).signer, s.server.Poller(q).count;
    assert PollerInv(c, s, s.server.Poller(q)) && AccountInv(c, s, a);
    PollKeepsAccounts(c, s, s', a, count);
    assert forall p: nat :: s'.server.Sender(p) == s.server.Sender(p);
    IdleSender(c, s, s', a);
    OneBookFrame(c, s, s', 0, q, a);
  }

  lemma IdleSender(c: Config, s: State, s': State, a: Address)
    requires SendersInv(c, s) && BooksGrow(c, s, s', a) && KeepsNonce(c, s, s', a)
    requires s'.server.Sender(0) == s.server.Sender(0)
    ensures SenderInv(c, s', s'.server.Sender(0))
  {
    assert SenderInv(c, s, s.server.Sender(0));
  }

  lemma ChainMoveStep(c: Config, s: State, a: Address, to: Counts, s': State)
    requires Inv(c, s) && ChainMayMove(c, s, a, to) && s' == s.(chain := s.chain[a := to])
    ensures Inv(c, s')
  {
    var b := BookOf(c, s, a);
    assert forall p: nat :: s'.server.Sender(p) == s.server.Sender(p);
    assert SenderInv(c, s, s.server.Sender(0)) && PollerInv(c, s, s.server.Poller(0)) && AccountInv(c, s, a);
    NextIsFree(c, s, Key(a, b.Next()));
    assert BookOf(c, s', a) == b.(chain := to);
    OneBookFrame(c, s, s', 0, 0, a);
  }

  // ---------- The block worker ----------

  /** What a worker step that rewrites or removes rows, or none, has to respect. */
  ghost predicate WorkerRespects(s: State, s': State) {
    && s'.server == s.server && s'.chain == s.chain
    && WellKeyed(s'.rows)
    && (forall k :: k in s'.rows ==>
          k in s.rows && (s'.rows[k].minedBlock == s.rows[k].minedBlock || k.nonce < s.ChainOf(k.signer).mined))
    && (forall k :: k in s.rows && s.ChainOf(k.signer).mined <= k.nonce ==> k in s'.rows)
    && (forall k :: k in s'.offered ==> k in s.offered || k in s.rows)
  }

  lemma WorkerKeepsStore(c: Config, s: State, s': State)
    requires Inv(c, s) && WorkerRespects(s, s')
    ensures forall a :: BookOf(c, s', a) == BookOf(c, s, a)
    ensures MutexInv(s') && StoreInv(c, s') && SendersInv(c, s')
  {
    forall a
      ensures BookOf(c, s', a) == BookOf(c, s, a) && AccountInv(c, s', a)
    {
      assert AccountInv(c, s, a);
    }
    forall k | k in s'.rows
      ensures RowInv(BookOf(c, s', k.signer), s'.rows[k])
    {
      assert RowInv(BookOf(c, s, k.signer), s.rows[k]);
    }
    forall k | k in s'.offered
      ensures k.nonce < BookOf(c, s', k.signer).Next()
    {
      assert k in s.rows ==> RowInv(BookOf(c, s, k.signer), s.rows[k]);
    }
    SameBooksSenders(c, s, s');
  }

  lemma SameBooksSenders(c: Config, s: State, s': State)
    requires SendersInv(c, s) && s'.server == s.server
    requires forall a :: BookOf(c, s', a) == BookOf(c, s, a)
    ensures SendersInv(c, s')
  {
    assert SenderInv(c, s, s.server.Sender(0)) && PollerInv(c, s, s.server.Poller(0));
    SendersFrame(c, s, s', 0, 0, Address(0));
  }

  /** Rewriting a stored row under its own key; a mined block may be recorded only below the mined count. */
  lemma WorkerWritesRow(c: Config, s: State, s': State, row: StoredTx)
    requires Inv(c, s)
    requires s'.server == s.server && s'.chain == s.chain && s'.offered == s.offered
    requires row.key in s.rows && s'.rows == s.rows[row.key := row] && row.attempts > 0
    requires row.minedBlock == s.rows[row.key].minedBlock || row.key.nonce < s.ChainOf(row.key.signer).mined
    ensures forall a :: BookOf(c, s', a) == BookOf(c, s, a)
    ensures MutexInv(s') && StoreInv(c, s') && SendersInv(c, s')
  {
    WorkerKeepsStore(c, s, s');
  }

  lemma MarkingStep(c: Config, s: State, step: WorkStep, s': State)
    requires Inv(c, s) && IsMarkingStep(step) && MarkingNext(s, step, s')
    ensures Inv(c, s')
  {
    if step.WriteMined? {
      WriteMinedStep(c, s, s');
    } else if step.Prune? {
      PruneStep(c, s, step, s');
    } else {
      QuietMarkingStep(c, s, step, s');
    }
  }

  lemma QuietMarkingStep(c: Config, s: State, step: WorkStep, s': State)
    requires Inv(c, s) && MarkingNext(s, step, s') && !step.WriteMined? && !step.Prune?
    ensures Inv(c, s')
  {
    QuietMarkingFrame(s, step, s');
    WorkerKeepsStore(c, s, s');
    QuietMarkingKeepsWorkerInv(c, s, step, s');
  }

  lemma QuietMarkingFrame(s: State, step: WorkStep, s': State)
    requires MarkingNext(s, step, s') && !step.WriteMined? && !step.Prune?
    ensures s' == s.(worker := s'.worker)
  {
  }

  lemma QuietMarkingKeepsWorkerInv(c: Config, s: State, step: WorkStep, s': State)
    requires WorkerInv(c, s) && MarkingNext(s, step, s') && !step.WriteMined? && !step.Prune?
    ensures WorkerInv(c, s')
  {
    if step.Receipt? {
      assert s.worker.todo == [s.worker.todo[0]] + s.worker.todo[1..];
    }
  }

  /** Only mined transactions can be pruned. */
  lemma PruneStep(c: Config, s: State, step: WorkStep, s': State)
    requires Inv(c, s) && step.Prune? && MarkingNext(s, step, s')
    ensures Inv(c, s')
  {
    forall k | k in s.rows && s.ChainOf(k.signer).mined <= k.nonce
      ensures k in s'.rows
    {
      assert RowInv(BookOf(c, s, k.signer), s.rows[k]);
    }
    WorkerKeepsStore(c, s, s');
  }

  lemma WriteMinedStep(c: Config, s: State, s': State)
    requires Inv(c, s) && MarkingNext(s, WriteMined, s')
    ensures Inv(c, s')
  {
    var tx, todo := s.worker.tx, s.worker.todo;
    var row := WithMinedBlock(tx, s.worker.minedBlock);
    ListAfterWrite(s.rows, tx, todo, row);
    assert s.rows[tx.key].attempts > 0;
    WorkerWritesRow(c, s, s', row);
  }

  lemma ListAfterWrite(rows: Rows, tx: StoredTx, todo: seq<StoredTx>, row: StoredTx)
    requires Lists(rows, [tx] + todo) && row.key == tx.key
    ensures tx.key in rows && rows[tx.key] == tx
    ensures Lists(rows[row.key := row], todo)
  {
    var all := [tx] + todo;
    assert all[0] == tx;
    assert forall j :: 0 <= j < |todo| ==> all[j + 1] == todo[j];
  }

  /** The rows of a nonce range without a hole at its start are numbered consecutively. */
  lemma RangeIsConsecutive(rows: Rows, a: Address, from: nat, to: Option<int>, next: int, txs: seq<StoredTx>)
    requires WellKeyed(rows) && IsNonceRange(rows, a, from, to, txs) && NothingMissing(rows, a, from, next)
    requires (to.Some? ==> next - 1 <= to.value) && forall j :: 0 <= j < |txs| ==> txs[j].key.nonce < next
    ensures forall j :: 0 <= j < |txs| ==> txs[j].key == Key(a, from + j)
    ensures |txs| == if from < next then next - from else 0
  {
    Consecutive(rows, a, from, to, next, txs, |txs|);
    if |txs| > 0 {
      assert txs[|txs| - 1].key.nonce < next;
    }
    if from + |txs| < next {
      var j := PositionInRange(rows, a, from, to, next, txs, from + |txs|);
    }
  }

  /** In an ascending list, a smaller nonce stands earlier. */
  lemma Ascending(txs: seq<StoredTx>, i: nat, j: nat)
    requires forall i, j :: 0 <= i < j < |txs| ==> txs[i].key.nonce < txs[j].key.nonce
    requires i < |txs| && j < |txs| && txs[i].key.nonce <= txs[j].key.nonce
    ensures i <= j
  {
  }

  lemma PositionInRange(rows: Rows, a: Address, from: nat, to: Option<int>, next: int, txs: seq<StoredTx>, n: nat)
    returns (j: nat)
    requires WellKeyed(rows) && IsNonceRange(rows, a, from, to, txs) && NothingMissing(rows, a, from, next)
    requires from <= n < next && (to.Some? ==> next - 1 <= to.value)
    ensures j < |txs| && txs[j].key == Key(a, n)
  {
    assert Key(a, n) in rows && InRange(rows[Key(a, n)], a, from, to);
    j :| 0 <= j < |txs| && txs[j] == rows[Key(a, n)];
  }

  lemma {:induction false} Consecutive(
    rows: Rows, a: Address, from: nat, to: Option<int>, next: int, txs: seq<StoredTx>, upTo: nat)
    requires WellKeyed(rows) && IsNonceRange(rows, a, from, to, txs) && NothingMissing(rows, a, from, next)
    requires (to.Some? ==> next - 1 <= to.value) && forall j :: 0 <= j < |txs| ==> txs[j].key.nonce < next
    requires upTo <= |txs|
    ensures forall j :: 0 <= j < upTo ==> txs[j].key == Key(a, from + j)
  {
    if upTo > 0 {
      var last := upTo - 1;
      Consecutive(rows, a, from, to, next, txs, last);
      assert InRange(txs[last], a, from, to) && rows[txs[last].key] == txs[last];
      if last > 0 {
        assert txs[last - 1].key.nonce < txs[last].key.nonce;
      }
      assert from + last <= txs[last].key.nonce;
      var j := PositionInRange(rows, a, from, to, next, txs, from + last);
      Ascending(txs, j, last);
    }
  }

  lemma RoundStep(c: Config, s: State, step: WorkStep, s': State)
    requires Inv(c, s) && RoundNext(c, s, step, s')
    ensures Inv(c, s')
  {
    if step.LoadPending? {
      LoadPendingStep(c, s, step.txs, s');
    } else if step.StoreAttempt? {
      StoreAttemptStep(c, s, s');
    } else {
      QuietRoundKeepsStore(c, s, step, s');
      WorkerKeepsStore(c, s, s');
      QuietRoundKeepsWorkerInv(c, s, step, s');
    }
  }

  lemma QuietRoundKeepsStore(c: Config, s: State, step: WorkStep, s': State)
    requires WorkerInv(c, s) && RoundNext(c, s, step, s') && !step.LoadPending? && !step.StoreAttempt?
    ensures s'.rows == s.rows && s'.server == s.server && s'.chain == s.chain
    ensures forall k :: k in s'.offered ==> k in s.offered || k in s.rows
  {
  }

  lemma QuietRoundKeepsWorkerInv(c: Config, s: State, step: WorkStep, s': State)
    requires Inv(c, s) && RoundNext(c, s, step, s') && !step.LoadPending? && !step.StoreAttempt?
    requires s'.rows == s.rows && s'.chain == s.chain && forall a :: BookOf(c, s', a) == BookOf(c, s, a)
    ensures WorkerInv(c, s')
  {
    if step.StartRound? {
      assert AccountInv(c, s, step.signer);
    }
  }

  /** The oldest pending row is always the one the chain expects next, so no round fails for a missing nonce. */
  lemma LoadPendingStep(c: Config, s: State, txs: seq<StoredTx>, s': State)
    requires Inv(c, s) && RoundNext(c, s, LoadPending(txs), s')
    ensures Inv(c, s')
    ensures forall j :: 0 <= j < |txs| ==> txs[j].key == Key(s.worker.round.signer, s.worker.round.mined + j)
  {
    LoadedNonces(c, s, txs, s');
    WorkerKeepsStore(c, s, s');
  }

  lemma LoadedNonces(c: Config, s: State, txs: seq<StoredTx>, s': State)
    requires Inv(c, s) && RoundNext(c, s, LoadPending(txs), s')
    ensures forall j :: 0 <= j < |txs| ==> txs[j].key == Key(s.worker.round.signer, s.worker.round.mined + j)
  {
    var round := s.worker.round;
    var next := BookOf(c, s, round.signer).Next();
    forall j | 0 <= j < |txs|
      ensures txs[j].key.nonce < next
    {
      assert InRange(txs[j], round.signer, round.mined, None) && s.rows[txs[j].key] == txs[j];
      assert RowInv(BookOf(c, s, round.signer), s.rows[txs[j].key]);
    }
    RangeIsConsecutive(s.rows, round.signer, round.mined, None, next, txs);
  }

  lemma StoreAttemptStep(c: Config, s: State, s': State)
    requires Inv(c, s) && RoundNext(c, s, StoreAttempt, s')
    ensures Inv(c, s')
  {
    AttemptKeepsWorker(c, s, s');
    StoreAttemptWrites(c, s, s');
    AttemptKeepsStore(c, s, s', Attempt(c, s.worker.txs[s.worker.i], s.worker.fees, s.worker.round.block));
  }

  lemma AttemptKeepsWorker(c: Config, s: State, s': State)
    requires WorkerInv(c, s) && RoundNext(c, s, StoreAttempt, s')
    ensures WorkerInv(c, s')
  {
    StoreAttemptWrites(c, s, s');
  }

  lemma AttemptKeepsStore(c: Config, s: State, s': State, row: StoredTx)
    requires Inv(c, s) && s.worker.Boosting? && s.worker.i < |s.worker.txs|
    requires row == Attempt(c, s.worker.txs[s.worker.i], s.worker.fees, s.worker.round.block)
    requires row.key in s.rows && s.rows[row.key] == s.worker.txs[s.worker.i]
    requires s'.server == s.server && s'.chain == s.chain && s'.offered == s.offered
    requires s'.rows == s.rows[row.key := row]
    ensures MutexInv(s') && StoreInv(c, s') && SendersInv(c, s')
  {
    AttemptIsNoNews(c, s, row);
    WorkerWritesRow(c, s, s', row);
  }

  /** The row of an attempt is as much mined, and under the same key, as the row it replaces. */
  lemma AttemptIsNoNews(c: Config, s: State, row: StoredTx)
    requires s.worker.Boosting? && s.worker.i < |s.worker.txs|
    requires row == Attempt(c, s.worker.txs[s.worker.i], s.worker.fees, s.worker.round.block)
    requires row.key in s.rows && s.rows[row.key] == s.worker.txs[s.worker.i]
    ensures row.minedBlock == s.rows[row.key].minedBlock && row.attempts > 0
  {
  }

  /** The write succeeds, since the row is there, and the rest of the snapshot stays current. */
  lemma StoreAttemptWrites(c: Config, s: State, s': State)
    requires WorkerInv(c, s) && RoundNext(c, s, StoreAttempt, s')
    ensures var w := s.worker;
      var row := Attempt(c, w.txs[w.i], w.fees, w.round.block);
      && row.key in s.rows && s.rows[row.key] == w.txs[w.i] && row.attempts == w.txs[w.i].attempts + 1
      && s' == s.(rows := s.rows[row.key := row], worker := Resending(w.round, w.txs, w.fees, w.i),
                  resends := s.resends + [Resend(row.key, w.round.block.timestamp)],
                  uneven := if s.skipped then s.uneven + {w.round.signer} else s.uneven)
      && Snapshot(s'.rows, w.round, w.txs, w.i + 1)
  {
    var w := s.worker;
    SnapshotAfterWrite(s.rows, w.round, w.txs, w.i, Attempt(c, w.txs[w.i], w.fees, w.round.block));
  }

  lemma SnapshotAfterWrite(rows: Rows, round: Round, txs: seq<StoredTx>, i: nat, row: StoredTx)
    requires Snapshot(rows, round, txs, i) && i < |txs| && row.key == txs[i].key
    ensures row.key in rows && rows[row.key] == txs[i]
    ensures Snapshot(rows[row.key := row], round, txs, i + 1)
  {
  }

  // ---------- Every step, every run ----------

  lemma NextKeepsInv(c: Config, s: State, step: Step, s': State)
    requires Inv(c, s) && Next(c, s, step, s')
    ensures Inv(c, s')
  {
    match step {
      case SendStep(p, ApplyPoll) => ApplyPollStep(c, s, p, s');
      case SendStep(p, TakeNonce) => TakeNonceStep(c, s, p, s');
      case SendStep(p, Insert) => InsertStep(c, s, p, s');
      case SendStep(p, send) => QuietSendStep(c, s, p, send, s');
      case PollStep(q, ReadPendingCount(a)) => PollerReadStep(c, s, q, a, s');
      case PollStep(q, ApplyReply) => PollerApplyStep(c, s, q, s');
      case ChainStep(a, to) => ChainMoveStep(c, s, a, to, s');
      case WorkStep(work) =>
        if IsMarkingStep(work) {
          MarkingStep(c, s, work, s');
        } else {
          RoundStep(c, s, work, s');
        }
    }
  }

  lemma {:induction false} RunKeepsInv(c: Config, states: seq<State>, steps: seq<Step>, i: nat)
    requires IsRun(c, states, steps) && i < |states|
    ensures Inv(c, states[i])
  {
    if i == 0 {
      InitEstablishesInv(c, states[0]);
    } else {
      RunKeepsInv(c, states, steps, i - 1);
      assert StepAt(c, states, steps, i - 1);
      NextKeepsInv(c, states[i - 1], steps[i - 1], states[i]);
    }
  }
}
