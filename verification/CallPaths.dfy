/**
 What the calls of `TransactionManager.ts` do when nothing interrupts them, the state machine can do: each lemma
 below gives the path whose end is what the contract of the class's method says. (`RoundIsAPath` of module
 TransactionManager does so for a boost round.) So what is proved of every run holds of the calls.
 */
module CallPaths {
  import opened Wrappers
  import opened StoredTransactions
  import opened TxStore
  import opened NoncePipeline
  import opened Paths
  import opened TransactionManager

  // ---------- pollNonce ----------

  /** A `pollNonce` call outside the mutex ends with the nonces its contract states, and touches nothing else. */
  lemma PollIsAPath(c: Config, s: State, q: nat, signer: Address) returns (end: State)
    requires s.server.Poller(q) == PollerIdle
    ensures Reaches(c, s, end)
    ensures end.server.Nonce(signer) == PolledNonce(s.server.Nonce(signer), s.ChainOf(signer).pending)
    ensures forall a :: a != signer ==> end.server.Nonce(a) == s.server.Nonce(a)
    ensures end.rows == s.rows && end.server.Poller(q) == PollerIdle && end.server.mutex == s.server.mutex
    ensures end.chain == s.chain && end.offered == s.offered && end.worker == s.worker
  {
    var pending := s.ChainOf(signer).pending;
    var read := s.(server := s.server.(pollers := s.server.pollers[q := PollerReply(signer, pending)]));
    end := read.(server := read.server.(
                   pollers := read.server.pollers[q := PollerIdle],
                   nonces := s.server.nonces[signer := PolledNonce(s.server.Nonce(signer), pending)]));
    ReachesItself(c, s);
    ReachesNext(c, s, s, PollStep(q, ReadPendingCount(signer)), read);
    ReachesNext(c, s, read, PollStep(q, ApplyReply), end);
  }

  // ---------- sendTransaction ----------

  /** The mutex holder has read the pending count and polled its nonce. */
  lemma NumberingIsAPath(c: Config, s: State, p: nat, request: Request) returns (numbered: State)
    requires s.server.Sender(p) == Idle && s.server.mutex == None
    ensures Reaches(c, s, numbered)
    ensures var nonce := PolledNonce(s.server.Nonce(request.signer), s.ChainOf(request.signer).pending);
      && numbered.server.Sender(p) == Numbered(request, nonce) && numbered.server.mutex == Some(p)
      && (forall a :: numbered.server.Nonce(a) == if a == request.signer then nonce else s.server.Nonce(a))
      && numbered.rows == s.rows && numbered.chain == s.chain
  {
    var a := request.signer;
    var waiting := s.(server := At(s.server, p, Waiting(request)));
    var polling := waiting.(server := At(waiting.server, p, Polling(request)).(mutex := Some(p)));
    var polled := polling.(server := At(polling.server, p, Polled(request, s.ChainOf(a).pending)));
    var nonce := PolledNonce(s.server.Nonce(a), s.ChainOf(a).pending);
    numbered := polled.(server := At(polled.server, p, Numbered(request, nonce)).(
                          nonces := polled.server.nonces[a := nonce]));
    ReachesItself(c, s);
    ReachesNext(c, s, s, SendStep(p, Submit(request)), waiting);
    ReachesNext(c, s, waiting, SendStep(p, AcquireMutex), polling);
    ReachesNext(c, s, polling, SendStep(p, PendingCountArrives), polled);
    ReachesNext(c, s, polled, SendStep(p, ApplyPoll), numbered);
  }

  /** The rest of a send, from the nonce to the answer. */
  lemma StoringIsAPath(c: Config, s: State, numbered: State, p: nat, succeeds: bool) returns (end: State)
    requires Reaches(c, s, numbered) && numbered.server.Sender(p).Numbered?
    ensures Reaches(c, s, end)
    ensures var pc := numbered.server.Sender(p);
      var row := FirstRow(c, pc.request, pc.nonce);
      && end.rows == (if PutError(numbered.rows, row, false).Some? then numbered.rows else numbered.rows[row.key := row])
      && end.server.Sender(p) == (if PutError(numbered.rows, row, false).Some? then Refused else Idle)
      && end.server.mutex == None
      && forall a :: end.server.Nonce(a) ==
           if a == pc.request.signer then numbered.server.Nonce(a) + 1 else numbered.server.Nonce(a)
  {
    var pc := numbered.server.Sender(p);
    var row := FirstRow(c, pc.request, pc.nonce);
    var inserting := TakingIsAPath(c, s, numbered, p);
    if PutError(numbered.rows, row, false).Some? {
      end := inserting.(server := At(inserting.server, p, Refused).(mutex := None));
      ReachesNext(c, s, inserting, SendStep(p, Insert), end);
    } else {
      var stored := inserting.(server := At(inserting.server, p, Broadcasting(row)).(mutex := None),
                               rows := inserting.rows[row.key := row]);
      ReachesNext(c, s, inserting, SendStep(p, Insert), stored);
      end := BroadcastIsAPath(c, s, stored, p, succeeds);
    }
  }

  lemma TakingIsAPath(c: Config, s: State, numbered: State, p: nat) returns (inserting: State)
    requires Reaches(c, s, numbered) && numbered.server.Sender(p).Numbered?
    ensures Reaches(c, s, inserting) && inserting.rows == numbered.rows
    ensures var pc := numbered.server.Sender(p);
      && inserting.server.Sender(p) == Inserting(FirstRow(c, pc.request, pc.nonce))
      && forall a :: inserting.server.Nonce(a) ==
           if a == pc.request.signer then numbered.server.Nonce(a) + 1 else numbered.server.Nonce(a)
  {
    var pc, server := numbered.server.Sender(p), numbered.server;
    var a, row := pc.request.signer, FirstRow(c, pc.request, pc.nonce);
    var storing := numbered.(server := At(server, p, Storing(row)).(
                               nonces := server.nonces[a := server.Nonce(a) + 1],
                               handed := server.handed[a := server.Handed(a) + [pc.nonce]]));
    inserting := storing.(server := At(storing.server, p, Inserting(row)));
    ReachesNext(c, s, numbered, SendStep(p, TakeNonce), storing);
    ReachesNext(c, s, storing, SendStep(p, FindExisting), inserting);
  }

  lemma BroadcastIsAPath(c: Config, s: State, stored: State, p: nat, succeeds: bool) returns (end: State)
    requires Reaches(c, s, stored) && stored.server.Sender(p).Broadcasting?
    ensures Reaches(c, s, end) && end.rows == stored.rows && end.server.Sender(p) == Idle
    ensures end.server.mutex == stored.server.mutex && end.server.nonces == stored.server.nonces
  {
    var tx := stored.server.Sender(p).tx;
    var sent := stored.(server := At(stored.server, p, if succeeds then Answering(tx) else Idle),
                        offered := if succeeds then stored.offered + {tx.key} else stored.offered);
    ReachesNext(c, s, stored, SendStep(p, BroadcastEnds(false, succeeds)), sent);
    if succeeds {
      end := sent.(server := At(sent.server, p, Idle));
      ReachesNext(c, s, sent, SendStep(p, Return), end);
    } else {
      end := sent;
    }
  }

  /**
   A `sendTransaction` call past its first checks ends with the store and the nonces its contract states: the
   signing may fail, the insert may be refused, and the broadcast may fail.
   */
  lemma SendIsAPath(c: Config, s: State, p: nat, request: Request, succeeds: bool) returns (end: State)
    requires s.server.Sender(p) == Idle && s.server.mutex == None
    ensures Reaches(c, s, end) && end.server.mutex == None
    ensures var nonce := PolledNonce(s.server.Nonce(request.signer), s.ChainOf(request.signer).pending);
      var row := FirstRow(c, request, nonce);
      && (forall a :: a != request.signer ==> end.server.Nonce(a) == s.server.Nonce(a))
      && if !Signable(c.kind, request.fees) then
           end.rows == s.rows && end.server.Nonce(request.signer) == nonce
         else
           && end.server.Nonce(request.signer) == nonce + 1
           && end.rows == if PutError(s.rows, row, false) == None then s.rows[row.key := row] else s.rows
  {
    var numbered := NumberingIsAPath(c, s, p, request);
    if !Signable(c.kind, request.fees) {
      end := numbered.(server := At(numbered.server, p, Idle).(mutex := None));
      ReachesNext(c, s, numbered, SendStep(p, SigningFails), end);
    } else {
      end := StoringIsAPath(c, s, numbered, p, succeeds);
    }
  }

  // ---------- Marking and pruning ----------

  /** A receipt exists only for a transaction that has been mined. */
  ghost predicate ReceiptsAreOfMined(s: State, receipts: TxId -> Option<Block>) {
    forall k :: k in s.rows && receipts(s.rows[k].Id()).Some? ==> k.nonce < s.ChainOf(k.signer).mined
  }

  /** Marking all rows, in any order that lists each once, ends with the rows its contract states. */
  lemma MarkingIsAPath(
    c: Config, s: State, txs: seq<StoredTx>, currentBlock: int, pruneAfterBlocks: int, receipts: TxId -> Option<Block>)
    requires s.worker == WorkerIdle && WellKeyed(s.rows) && ReceiptsAreOfMined(s, receipts)
    requires Lists(s.rows, txs) && ListsAll(s.rows, txs)
    ensures Reaches(c, s, s.(rows := MarkedRows(s.rows, currentBlock, pruneAfterBlocks, receipts)))
  {
    var started := s.(worker := Marking(txs));
    ReachesItself(c, s);
    ReachesNext(c, s, s, WorkStep(StartMarking(txs)), started);
    NothingMarked(s.rows, currentBlock, pruneAfterBlocks, receipts);
    var now := MarkingLoop(c, s, txs, |txs|, currentBlock, pruneAfterBlocks, receipts);
    assert txs[..|txs|] == txs && txs[|txs|..] == [];
    AllMarked(s.rows, now, txs, currentBlock, pruneAfterBlocks, receipts);
    var marked := s.(worker := Marking([]), rows := now);
    ReachesNext(c, s, marked, WorkStep(MarkingDone), marked.(worker := WorkerIdle));
    assert marked.(worker := WorkerIdle) == s.(rows := now);
  }

  lemma {:induction false} MarkingLoop(
    c: Config, s: State, txs: seq<StoredTx>, i: nat, currentBlock: int, pruneAfterBlocks: int,
    receipts: TxId -> Option<Block>)
    returns (now: Rows)
    requires i <= |txs| && ListsAll(s.rows, txs) && ReceiptsAreOfMined(s, receipts)
    requires Reaches(c, s, s.(worker := Marking(txs)))
    ensures now.Keys == s.rows.Keys && MarkedSoFar(s.rows, now, txs[..i], currentBlock, pruneAfterBlocks, receipts)
    ensures Reaches(c, s, s.(worker := Marking(txs[i..]), rows := now))
  {
    if i == 0 {
      now := s.rows;
      assert txs[0..] == txs;
      NothingMarked(s.rows, currentBlock, pruneAfterBlocks, receipts);
    } else {
      var before := MarkingLoop(c, s, txs, i - 1, currentBlock, pruneAfterBlocks, receipts);
      now := MarkingLoopTurn(c, s, txs, i - 1, before, currentBlock, pruneAfterBlocks, receipts);
    }
  }

  lemma MarkingLoopTurn(
    c: Config, s: State, txs: seq<StoredTx>, i: nat, before: Rows, currentBlock: int, pruneAfterBlocks: int,
    receipts: TxId -> Option<Block>)
    returns (now: Rows)
    requires i < |txs| && ListsAll(s.rows, txs) && ReceiptsAreOfMined(s, receipts)
    requires before.Keys == s.rows.Keys
    requires MarkedSoFar(s.rows, before, txs[..i], currentBlock, pruneAfterBlocks, receipts)
    requires Reaches(c, s, s.(worker := Marking(txs[i..]), rows := before))
    ensures now.Keys == s.rows.Keys && MarkedSoFar(s.rows, now, txs[..i + 1], currentBlock, pruneAfterBlocks, receipts)
    ensures Reaches(c, s, s.(worker := Marking(txs[i + 1..]), rows := now))
  {
    now := NextMarked(s.rows, before, txs, i, currentBlock, pruneAfterBlocks, receipts);
    TakeFirst(txs, i);
    MarkingTurn(c, s, s.(worker := Marking(txs[i..]), rows := before), currentBlock, pruneAfterBlocks, receipts);
  }

  lemma TakeFirst(txs: seq<StoredTx>, i: nat)
    requires i < |txs|
    ensures txs[i..] != [] && txs[i..][0] == txs[i] && txs[i..][1..] == txs[i + 1..]
  {
  }

  lemma NextMarked(
    rows: Rows, before: Rows, txs: seq<StoredTx>, i: nat, currentBlock: int, pruneAfterBlocks: int,
    receipts: TxId -> Option<Block>)
    returns (now: Rows)
    requires i < |txs| && ListsAll(rows, txs) && before.Keys == rows.Keys
    requires MarkedSoFar(rows, before, txs[..i], currentBlock, pruneAfterBlocks, receipts)
    ensures txs[i].key in before && txs[i].attempts > 0 && IsRow(rows, txs[i])
    ensures var marked := Marked(txs[i], currentBlock, pruneAfterBlocks, receipts);
      now == if marked == txs[i] then before else before[txs[i].key := marked]
    ensures now.Keys == rows.Keys
    ensures MarkedSoFar(rows, now, txs[..i + 1], currentBlock, pruneAfterBlocks, receipts)
  {
    var marked := Marked(txs[i], currentBlock, pruneAfterBlocks, receipts);
    now := if marked == txs[i] then before else before[txs[i].key := marked];
    assert IsRow(rows, txs[i]);
    MarkedOneMore(rows, before, now, txs, i, currentBlock, pruneAfterBlocks, receipts);
  }

  /** One transaction: no receipt with news, or a receipt and the row rewritten. */
  lemma MarkingTurn(
    c: Config, from: State, s: State, currentBlock: int, pruneAfterBlocks: int, receipts: TxId -> Option<Block>)
    requires Reaches(c, from, s) && s.worker.Marking? && s.worker.todo != []
    requires var tx := s.worker.todo[0];
      tx.attempts > 0 && (receipts(tx.Id()).Some? ==> tx.key.nonce < s.ChainOf(tx.key.signer).mined) && tx.key in s.rows
    ensures var tx := s.worker.todo[0];
      var marked := Marked(tx, currentBlock, pruneAfterBlocks, receipts);
      Reaches(c, from, s.(worker := Marking(s.worker.todo[1..]),
                          rows := if marked == tx then s.rows else s.rows[tx.key := marked]))
  {
    var tx, rest := s.worker.todo[0], s.worker.todo[1..];
    var marked := Marked(tx, currentBlock, pruneAfterBlocks, receipts);
    if marked == tx {
      ReachesNext(c, from, s, WorkStep(NoReceipt), s.(worker := Marking(rest)));
    } else {
      var block := receipts(tx.Id()).value;
      var writing := s.(worker := WritingMined(tx, block, rest));
      ReachesNext(c, from, s, WorkStep(Receipt(block)), writing);
      ReachesNext(c, from, writing, WorkStep(WriteMined),
                  s.(worker := Marking(rest), rows := s.rows[tx.key := marked]));
    }
  }

  /** Pruning is one step. */
  lemma PruningIsAPath(c: Config, s: State, current: Block, pruneAfterBlocks: int, pruneAfterSeconds: int)
    requires s.worker == WorkerIdle
    ensures Reaches(c, s, s.(rows := RemoveArchived(
      s.rows, current.number - pruneAfterBlocks, current.timestamp - pruneAfterSeconds)))
  {
    var block, timestamp := current.number - pruneAfterBlocks, current.timestamp - pruneAfterSeconds;
    ReachesItself(c, s);
    ReachesNext(c, s, s, WorkStep(Prune(block, timestamp)), s.(rows := RemoveArchived(s.rows, block, timestamp)));
  }
}
