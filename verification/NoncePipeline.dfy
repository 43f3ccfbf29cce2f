/**
 The relay's outgoing-transaction protocol as a state machine. Any number of `sendTransaction` calls,
 any number of `pollNonce` calls made outside the mutex, one block worker (mined-marking, pruning,
 boosting) and the chain take steps in any order; every `await` of the source ends a step, and any
 remote call may fail.
 */
module NoncePipeline {
  import opened Wrappers
  import opened StoredTransactions
  import opened TxStore
  import opened GasFees

  /** `inherited` is each signer's pending count on the chain when the run starts. */
  datatype Config = Config(
    kind: TransactionType,
    retryGasPriceFactor: Factor,
    maxMaxFeePerGas: nat,
    pendingTransactionTimeoutSeconds: int,
    inherited: map<Address, nat>)

  /** A signer's transaction counts as the chain reports them for 'latest' and for 'pending'. */
  datatype Counts = Counts(mined: nat, pending: nat)

  datatype Request = Request(signer: Address, call: Call, fees: Fees, action: ServerAction, block: Block)

  /** Where one `sendTransaction` call stands. The mutex is held from `Polling` to `Inserting`. */
  datatype Sender =
    | Idle
    | Waiting(request: Request)
    | Polling(request: Request)
    | Polled(request: Request, count: nat)
    | Numbered(request: Request, nonce: nat)
    | Storing(tx: StoredTx)
    | Inserting(tx: StoredTx)
    | Broadcasting(tx: StoredTx)
    | Answering(tx: StoredTx)
    | Refused
  {
    predicate HoldsMutex() {
      Polling? || Polled? || Numbered? || Storing? || Inserting?
    }
  }

  /** A `pollNonce` call from `validateMaxNonce`, which takes no mutex. */
  datatype Poller = PollerIdle | PollerReply(signer: Address, count: nat)

  /** What a boost round fixed before its loop: the signer, the worker's block, the mined count it read. */
  datatype Round = Round(signer: Address, block: Block, mined: nat)

  /** Where the block worker stands. In the boost loop, `i` rows of the snapshot have been dealt with. */
  datatype Worker =
    | WorkerIdle
    | Marking(todo: seq<StoredTx>)
    | WritingMined(tx: StoredTx, minedBlock: Block, todo: seq<StoredTx>)
    | Counted(round: Round)
    | Pricing(round: Round, txs: seq<StoredTx>)
    | Boosting(round: Round, txs: seq<StoredTx>, fees: Fees, i: nat)
    | Resending(round: Round, txs: seq<StoredTx>, fees: Fees, i: nat)
    | MissingNonce

  /** One entry for every attempt a boost round has written to the store. */
  datatype Resend = Resend(key: Key, timestamp: int)

  /** The memory of the server process; `handed` are the nonces taken so far by each signer's sends. */
  datatype Server = Server(
    nonces: map<Address, nat>,
    mutex: Option<nat>,
    senders: map<nat, Sender>,
    pollers: map<nat, Poller>,
    handed: map<Address, seq<nat>>)
  {
    function Nonce(a: Address): nat {
      if a in nonces then nonces[a] else 0
    }

    function Sender(p: nat): Sender {
      if p in senders then senders[p] else Idle
    }

    function Poller(q: nat): Poller {
      if q in pollers then pollers[q] else PollerIdle
    }

    function Handed(a: Address): seq<nat> {
      if a in handed then handed[a] else []
    }
  }

  /**
   `offered` are the transactions handed to the network. `skipped` says whether the latest round has passed over
   a row whose rebroadcast failed before it was written; `uneven` are the signers of which a round has written a
   row after that.
   */
  datatype State = State(
    server: Server,
    rows: Rows,
    chain: map<Address, Counts>,
    offered: set<Key>,
    worker: Worker,
    workerTime: int,
    resends: seq<Resend>,
    skipped: bool,
    uneven: set<Address>)
  {
    function ChainOf(a: Address): Counts {
      if a in chain then chain[a] else Counts(0, 0)
    }
  }

  function Inherited(c: Config, a: Address): nat {
    if a in c.inherited then c.inherited[a] else 0
  }

  // ---------- sendTransaction ----------

  datatype SendStep =
    | Submit(request: Request)
    | AcquireMutex
    | PendingCountArrives
    | PendingCountFails
    | ApplyPoll
    | TakeNonce
    | SigningFails
    | FindExisting
    | Insert
    | BroadcastEnds(reachedNetwork: bool, succeeded: bool)
    | Return

  /** `pollNonce` after its reply: the greater of the reply and the in-memory nonce is kept. */
  function PolledNonce(nonce: nat, count: nat): nat {
    if count > nonce then count else nonce
  }

  predicate SenderNext(c: Config, s: State, p: nat, step: SendStep, s': State) {
    var pc := s.server.Sender(p);
    match step
    case Submit(request) => pc.Idle? && s' == s.(server := At(s.server, p, Waiting(request)))
    case AcquireMutex =>
      && pc.Waiting? && s.server.mutex.None?
      && s' == s.(server := At(s.server, p, Polling(pc.request)).(mutex := Some(p)))
    case PendingCountArrives =>
      pc.Polling? && s' == s.(server := At(s.server, p, Polled(pc.request, s.ChainOf(pc.request.signer).pending)))
    case PendingCountFails => pc.Polling? && s' == s.(server := At(s.server, p, Idle).(mutex := None))
    case ApplyPoll =>
      pc.Polled? &&
      var a := pc.request.signer;
      var nonce := PolledNonce(s.server.Nonce(a), pc.count);
      s' == s.(server := At(s.server, p, Numbered(pc.request, nonce)).(nonces := s.server.nonces[a := nonce]))
    case SigningFails => pc.Numbered? && s' == s.(server := At(s.server, p, Idle).(mutex := None))
    case TakeNonce =>
      pc.Numbered? &&
      var a := pc.request.signer;
      s' == s.(server := At(s.server, p, Storing(FirstRow(c, pc.request, pc.nonce))).(
                 nonces := s.server.nonces[a := s.server.Nonce(a) + 1],
                 handed := s.server.handed[a := s.server.Handed(a) + [pc.nonce]]))
    case FindExisting => pc.Storing? && s' == s.(server := At(s.server, p, Inserting(pc.tx)))
    case Insert =>
      pc.Inserting? &&
      s' == if PutError(s.rows, pc.tx, false).Some?
            then s.(server := At(s.server, p, Refused).(mutex := None))
            else s.(server := At(s.server, p, Broadcasting(pc.tx)).(mutex := None), rows := s.rows[pc.tx.key := pc.tx])
    case BroadcastEnds(reached, succeeded) =>
      pc.Broadcasting? &&
      s' == s.(server := At(s.server, p, if succeeded then Answering(pc.tx) else Idle),
               offered := if reached || succeeded then s.offered + {pc.tx.key} else s.offered)
    case Return => pc.Answering? && s' == s.(server := At(s.server, p, Idle))
  }

  function At(server: Server, p: nat, pc: Sender): Server {
    server.(senders := server.senders[p := pc])
  }

  /** The row `sendTransaction` builds once it has a nonce. */
  function FirstRow(c: Config, r: Request, nonce: nat): StoredTx {
    FirstAttempt(c.kind, Key(r.signer, nonce), r.call, r.fees, r.action, r.block)
  }

  /** The transaction is the one asked for: a legacy one records its single gas price as both fees. */
  predicate Carries(kind: TransactionType, tx: StoredTx, r: Request) {
    && tx.key.signer == r.signer && tx.call == r.call && tx.action == r.action && tx.creationBlock == r.block
    && match kind
       case Legacy => tx.fees == Fees(r.fees.max, r.fees.max)
       case FeeMarket => tx.fees == r.fees
  }

  // ---------- pollNonce outside the mutex ----------

  datatype PollStep = ReadPendingCount(signer: Address) | ApplyReply

  predicate PollerNext(s: State, q: nat, step: PollStep, s': State) {
    var pc, pollers := s.server.Poller(q), s.server.pollers;
    match step
    case ReadPendingCount(a) =>
      && pc.PollerIdle?
      && s' == s.(server := s.server.(pollers := pollers[q := PollerReply(a, s.ChainOf(a).pending)]))
    case ApplyReply =>
      && pc.PollerReply?
      && s' == s.(server := s.server.(
                    pollers := pollers[q := PollerIdle],
                    nonces := s.server.nonces[pc.signer := PolledNonce(s.server.Nonce(pc.signer), pc.count)]))
  }

  // ---------- The chain ----------

  /**
   The mined count never falls and never passes the pending count. A transaction counts as pending only if
   it was pending when the run started or has been offered since; offered ones may drop out again.
   */
  ghost predicate ChainMayMove(c: Config, s: State, a: Address, to: Counts) {
    && s.ChainOf(a).mined <= to.mined <= to.pending
    && Inherited(c, a) <= to.pending
    && forall n: nat :: Inherited(c, a) <= n < to.pending ==> Key(a, n) in s.offered
  }

  // ---------- The block worker ----------

  datatype WorkStep =
    | StartMarking(all: seq<StoredTx>)
    | NoReceipt
    | Receipt(minedBlock: Block)
    | WriteMined
    | MarkingDone
    | Prune(upToBlock: int, upToTimestamp: int)
    | StartRound(signer: Address, block: Block)
    | LoadPending(txs: seq<StoredTx>)
    | GasFeesFail
    | GasFeesArrive(minPriority: nat, baseFee: nat)
    | StoreAttempt
    | CheckFails
    | RebroadcastEnds(reachedNetwork: bool, succeeded: bool)
    | RoundDone

  /** The rows are listed once each; `getAll` returns such a list. */
  ghost predicate Lists(rows: Rows, txs: seq<StoredTx>) {
    && (forall i :: 0 <= i < |txs| ==> txs[i].key in rows && rows[txs[i].key] == txs[i])
    && (forall i, j :: 0 <= i < j < |txs| ==> txs[i].key != txs[j].key)
  }

  /** The test that decides between boosting a pending transaction and rebroadcasting it as it is. */
  predicate Underpriced(tx: StoredTx, fees: Fees) {
    tx.fees.max < fees.max || tx.fees.priority < fees.priority
  }

  /** The row the boost loop writes for a transaction of its snapshot. */
  function Attempt(c: Config, tx: StoredTx, fees: Fees, block: Block): StoredTx {
    NextAttempt(c.kind, tx, if Underpriced(tx, fees) then fees else tx.fees, block)
  }

  ghost predicate MarkingNext(s: State, step: WorkStep, s': State) {
    var w := s.worker;
    match step
    case StartMarking(all) => w.WorkerIdle? && Lists(s.rows, all) && s' == s.(worker := Marking(all))
    case NoReceipt => w.Marking? && w.todo != [] && s' == s.(worker := Marking(w.todo[1..]))
    case Receipt(block) =>
      // a receipt exists only for a transaction that has been mined
      && w.Marking? && w.todo != [] && w.todo[0].key.nonce < s.ChainOf(w.todo[0].key.signer).mined
      && s' == s.(worker := WritingMined(w.todo[0], block, w.todo[1..]))
    case WriteMined =>
      w.WritingMined? &&
      var row := WithMinedBlock(w.tx, w.minedBlock);
      s' == if PutError(s.rows, row, true).Some? then s.(worker := WorkerIdle)
            else s.(rows := s.rows[row.key := row], worker := Marking(w.todo))
    case MarkingDone => w.Marking? && s' == s.(worker := WorkerIdle)
    case Prune(block, timestamp) => w.WorkerIdle? && s' == s.(rows := RemoveArchived(s.rows, block, timestamp))
    case _ => false
  }

  ghost predicate RoundNext(c: Config, s: State, step: WorkStep, s': State) {
    var w := s.worker;
    match step
    case StartRound(a, block) =>
      && w.WorkerIdle? && s.workerTime <= block.timestamp
      && s' == s.(worker := Counted(Round(a, block, s.ChainOf(a).mined)), workerTime := block.timestamp, skipped := false)
    case LoadPending(txs) =>
      && w.Counted? && IsNonceRange(s.rows, w.round.signer, w.round.mined, None, txs)
      && s' == s.(worker := AfterLoading(c, w.round, txs))
    case GasFeesFail => w.Pricing? && s' == s.(worker := WorkerIdle)
    case GasFeesArrive(minPriority, baseFee) =>
      && w.Pricing? && w.txs != []
      && s' == s.(worker := Boosting(w.round, w.txs, NewFees(c, w.txs[0], minPriority, baseFee), 0))
    case StoreAttempt =>
      w.Boosting? && w.i < |w.txs| &&
      var row := Attempt(c, w.txs[w.i], w.fees, w.round.block);
      s' == if PutError(s.rows, row, true).Some? then s.(worker := WorkerIdle)
            else s.(
                  rows := s.rows[row.key := row],
                  worker := Resending(w.round, w.txs, w.fees, w.i),
                  resends := s.resends + [Resend(row.key, w.round.block.timestamp)],
                  uneven := if s.skipped then s.uneven + {w.round.signer} else s.uneven)
    case CheckFails =>
      // the balance check or the signing throws: fatal to the round for a boost, swallowed for a rebroadcast
      w.Boosting? && w.i < |w.txs| &&
      s' == if Underpriced(w.txs[w.i], w.fees) then s.(worker := WorkerIdle)
            else s.(worker := Boosting(w.round, w.txs, w.fees, w.i + 1), skipped := true)
    case RebroadcastEnds(reached, succeeded) =>
      w.Resending? && w.i < |w.txs| &&
      s' == s.(
        offered := if reached || succeeded then s.offered + {w.txs[w.i].key} else s.offered,
        worker := if !succeeded && Underpriced(w.txs[w.i], w.fees) then WorkerIdle
                  else Boosting(w.round, w.txs, w.fees, w.i + 1))
    case RoundDone => w.Boosting? && w.i == |w.txs| && s' == s.(worker := WorkerIdle)
    case _ => false
  }

  /** The checks between loading the pending transactions and asking for the network fees. */
  function AfterLoading(c: Config, round: Round, txs: seq<StoredTx>): Worker {
    if txs == [] then WorkerIdle
    else if txs[0].key.nonce != round.mined then MissingNonce
    else if round.block.timestamp - txs[0].LastSent() < c.pendingTransactionTimeoutSeconds then WorkerIdle
    else Pricing(round, txs)
  }

  /** The one pair of fees of a round, resolved from its oldest pending transaction. */
  function NewFees(c: Config, oldest: StoredTx, minPriority: nat, baseFee: nat): Fees {
    ResolvedFees(c.retryGasPriceFactor, c.maxMaxFeePerGas, oldest.fees, minPriority, baseFee)
  }

  predicate IsMarkingStep(step: WorkStep) {
    step.StartMarking? || step.NoReceipt? || step.Receipt? || step.WriteMined? || step.MarkingDone? || step.Prune?
  }

  // ---------- Runs ----------

  datatype Step =
    | SendStep(p: nat, send: SendStep)
    | PollStep(q: nat, poll: PollStep)
    | ChainStep(signer: Address, counts: Counts)
    | WorkStep(work: WorkStep)

  ghost predicate Next(c: Config, s: State, step: Step, s': State) {
    match step
    case SendStep(p, send) => SenderNext(c, s, p, send, s')
    case PollStep(q, poll) => PollerNext(s, q, poll, s')
    case ChainStep(a, to) => ChainMayMove(c, s, a, to) && s' == s.(chain := s.chain[a := to])
    case WorkStep(work) => if IsMarkingStep(work) then MarkingNext(s, work, s') else RoundNext(c, s, work, s')
  }

  /** A store left by an earlier process agrees with the chain: nothing is missing from the mined count on. */
  ghost predicate ConsistentWithChain(c: Config, s: State) {
    && WellKeyed(s.rows)
    && (forall a ::
          && s.ChainOf(a).mined <= s.ChainOf(a).pending == Inherited(c, a)
          && forall n: nat :: s.ChainOf(a).mined <= n < Inherited(c, a) ==> Key(a, n) in s.rows)
    && (forall k :: k in s.rows ==>
          && k.nonce < Inherited(c, k.signer)
          && (s.rows[k].minedBlock.Some? ==> k.nonce < s.ChainOf(k.signer).mined))
  }

  ghost predicate Init(c: Config, s: State) {
    && (forall a :: s.server.Nonce(a) == 0 && s.server.Handed(a) == [])
    && (forall p: nat :: s.server.Sender(p) == Idle)
    && (forall q: nat :: s.server.Poller(q) == PollerIdle)
    && s.server.mutex == None && s.worker == WorkerIdle && s.offered == {} && s.resends == [] && !s.skipped
    && s.uneven == {}
    && ConsistentWithChain(c, s)
  }

  ghost predicate StepAt(c: Config, states: seq<State>, steps: seq<Step>, i: nat)
    requires |states| == |steps| + 1 && i < |steps|
  {
    Next(c, states[i], steps[i], states[i + 1])
  }

  ghost predicate IsRun(c: Config, states: seq<State>, steps: seq<Step>) {
    && |states| == |steps| + 1
    && Init(c, states[0])
    && forall i :: 0 <= i < |steps| ==> StepAt(c, states, steps, i)
  }
}
