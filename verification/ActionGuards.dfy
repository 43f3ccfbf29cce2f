/**
 The guard that keeps the relay from repeating its own on-chain actions: `isActionPendingOrRecentlyMined` as
 `RegistrationManager.ts` and `_shouldRegisterAgain` use it. One worker runs the rounds, one after the other; between
 its steps other senders store transactions of other kinds. The nonces handed out are new (see `NonceSafety`).
 */
module ActionGuards {
  import opened Wrappers
  import opened StoredTransactions
  import opened TxStore

  /** What a guard looks for: an action, possibly only to one destination. */
  datatype Guard = Guard(action: ServerAction, destination: Option<Address>)

  datatype Config = Config(
    distance: nat,
    pruneAfterBlocks: int,
    pruneAfterSeconds: int)

  /** The actions only the worker sends: registrations, added workers and hub authorizations. */
  function Guards(): set<Guard> {
    {Guard(RegisterServer, None), Guard(AddWorker, None), Guard(AuthorizeHub, None)}
  }

  predicate Matches(g: Guard, tx: StoredTx) {
    tx.action == g.action && (g.destination.Some? ==> tx.call.to == g.destination.value)
  }

  /** `everSent` is the store as it would be without pruning. `cleared` holds the guards passed but not yet used. */
  datatype State = State(rows: Rows, everSent: Rows, block: Block, cleared: set<Guard>)

  datatype Step =
    | NewBlock(block: Block)
    | PassGuard(guard: Guard)
    | Send(guard: Guard, tx: StoredTx)
    | SendOther(tx: StoredTx)
    | Resend(key: Key, tx: StoredTx)
    | MarkMined(key: Key, mined: Block)
    | Prune

  predicate IsNew(s: State, tx: StoredTx) {
    tx.key !in s.everSent && tx.Pending() && tx.creationBlock == s.block
  }

  function Store(s: State, tx: StoredTx): State {
    s.(rows := s.rows[tx.key := tx], everSent := s.everSent[tx.key := tx])
  }

  ghost predicate Next(c: Config, s: State, step: Step, s': State) {
    match step
    case NewBlock(block) =>
      block.number >= s.block.number && s' == s.(block := block, cleared := {})
    case PassGuard(g) =>
      && g in Guards()
      && !ActionPendingOrRecent(s.rows, g.action, s.block.number, c.distance, g.destination)
      && s' == s.(cleared := s.cleared + {g})
    case Send(g, tx) =>
      g in s.cleared && Matches(g, tx) && IsNew(s, tx) && s' == Store(s, tx).(cleared := s.cleared - {g})
    case SendOther(tx) =>
      && IsNew(s, tx) && (forall g :: g in Guards() ==> !Matches(g, tx))
      && s' == Store(s, tx)
    case Resend(k, tx) =>
      && k in s.rows && s.rows[k].Pending() && tx.key == k && tx.Pending()
      && tx.action == s.rows[k].action && tx.call.to == s.rows[k].call.to
      && tx.creationBlock == s.rows[k].creationBlock
      && s' == Store(s, tx)
    case MarkMined(k, mined) =>
      k in s.rows && s.rows[k].Pending() && s' == Store(s, WithMinedBlock(s.rows[k], mined))
    case Prune =>
      s' == s.(rows := RemoveArchived(s.rows, s.block.number - c.pruneAfterBlocks,
                                      s.block.timestamp - c.pruneAfterSeconds))
  }

  /** Any store an earlier process may have left: at most one transaction pending for each guard. */
  ghost predicate Init(s: State) {
    && s.everSent == s.rows && s.cleared == {}
    && (forall k :: k in s.rows ==> s.rows[k].key == k)
    && (forall g :: g in Guards() ==> AtMostOne(s.rows, g))
  }

  ghost predicate StepAt(c: Config, states: seq<State>, steps: seq<Step>, i: nat)
    requires i < |steps| && i + 1 < |states|
  {
    Next(c, states[i], steps[i], states[i + 1])
  }

  ghost predicate IsRun(c: Config, states: seq<State>, steps: seq<Step>) {
    && |states| == |steps| + 1
    && Init(states[0])
    && forall i :: 0 <= i < |steps| ==> StepAt(c, states, steps, i)
  }

  // ---------- Pruning and the guard's answer ----------

  ghost predicate SameAnswer(
    rows: Rows, block: Block, later: int, g: Guard, distance: int, pruneAfterBlocks: int, pruneAfterSeconds: int)
  {
    ActionPendingOrRecent(
      RemoveArchived(rows, block.number - pruneAfterBlocks, block.timestamp - pruneAfterSeconds),
      g.action, later, distance, g.destination)
    <==> ActionPendingOrRecent(rows, g.action, later, distance, g.destination)
  }

  ghost predicate PruningNeverMatters(distance: int, pruneAfterBlocks: int, pruneAfterSeconds: int) {
    forall rows, block: Block, later, g :: later >= block.number ==>
      SameAnswer(rows, block, later, g, distance, pruneAfterBlocks, pruneAfterSeconds)
  }

  /**
   Pruning never changes the guard's answer, at this or any later block, exactly when transactions are kept for
   more blocks than the guard looks back.
   */
  lemma PruningIsInvisibleIffKeptLongEnough(distance: int, pruneAfterBlocks: int, pruneAfterSeconds: int)
    ensures PruningNeverMatters(distance, pruneAfterBlocks, pruneAfterSeconds) <==> pruneAfterBlocks > distance
  {
    if pruneAfterBlocks > distance {
      forall rows, block: Block, later, g | later >= block.number
        ensures SameAnswer(rows, block, later, g, distance, pruneAfterBlocks, pruneAfterSeconds)
      {
        KeptLongEnough(rows, block, later, g, distance, pruneAfterBlocks, pruneAfterSeconds);
      }
    } else {
      PrunedTooEarly(distance, pruneAfterBlocks, pruneAfterSeconds);
    }
  }

  lemma KeptLongEnough(
    rows: Rows, block: Block, later: int, g: Guard, distance: int, pruneAfterBlocks: int, pruneAfterSeconds: int)
    requires later >= block.number && pruneAfterBlocks > distance
    ensures SameAnswer(rows, block, later, g, distance, pruneAfterBlocks, pruneAfterSeconds)
  {
    var kept := RemoveArchived(rows, block.number - pruneAfterBlocks, block.timestamp - pruneAfterSeconds);
    forall k | k in rows && Blocks(rows[k], g.action, later, distance, g.destination)
      ensures k in kept
    {
    }
  }

  lemma PrunedTooEarly(distance: int, pruneAfterBlocks: int, pruneAfterSeconds: int)
    requires pruneAfterBlocks <= distance
    ensures !PruningNeverMatters(distance, pruneAfterBlocks, pruneAfterSeconds)
  {
    var block, g := Block(0, 0), Guard(RegisterServer, None);
    var tx := StoredTx(Key(Address(1), 0), Call(Address(2), 0, CallData(0, 0), 0), Fees(1, 1), RegisterServer,
                       Block(0, 0), 1, None, Some(Block(-pruneAfterBlocks, -pruneAfterSeconds)));
    var rows: Rows := map[tx.key := tx];
    assert RemoveArchived(rows, -pruneAfterBlocks, -pruneAfterSeconds) == map[];
    assert Blocks(rows[tx.key], RegisterServer, 0, distance, None);
    assert !SameAnswer(rows, block, 0, g, distance, pruneAfterBlocks, pruneAfterSeconds);
  }

  // ---------- At most one pending ----------

  ghost predicate AtMostOne(sent: Rows, g: Guard) {
    forall j, k :: NotBothPending(sent, g, j, k)
  }

  predicate NotBothPending(sent: Rows, g: Guard, j: Key, k: Key) {
    j in sent && k in sent && IsPending(sent, g, j) && IsPending(sent, g, k) ==> j == k
  }

  predicate IsPending(sent: Rows, g: Guard, k: Key)
    requires k in sent
  {
    Matches(g, sent[k]) && sent[k].Pending()
  }

  ghost predicate NonePending(sent: Rows, g: Guard) {
    forall k :: k in sent ==> !IsPending(sent, g, k)
  }

  /** The store is what was ever sent, without some mined transactions. */
  ghost predicate RowsInv(s: State) {
    && (forall k :: k in s.everSent ==> s.everSent[k].key == k)
    && (forall k :: k in s.rows ==> k in s.everSent && s.rows[k] == s.everSent[k])
    && (forall k :: k in s.everSent && k !in s.rows ==> s.everSent[k].minedBlock.Some?)
  }

  ghost predicate PendingInv(s: State) {
    && RowsInv(s)
    && (forall g :: g in Guards() ==> AtMostOne(s.everSent, g))
    && (forall g :: g in s.cleared ==> g in Guards() && NonePending(s.everSent, g))
  }

  lemma GuardsAreDisjoint(g: Guard, h: Guard, tx: StoredTx)
    requires g in Guards() && h in Guards() && Matches(g, tx) && Matches(h, tx)
    ensures g == h
  {
  }

  lemma RowsKept(c: Config, s: State, step: Step, s': State)
    requires RowsInv(s) && Next(c, s, step, s')
    ensures RowsInv(s')
  {
  }

  /** A row that is rewritten was pending, and keeps all that the guards look at except for being pending. */
  predicate Rewrites(tx: StoredTx, tx': StoredTx) {
    && tx.Pending() && tx'.key == tx.key && tx'.action == tx.action && tx'.call.to == tx.call.to
    && tx'.creationBlock == tx.creationBlock
  }

  lemma RewriteKeepsPending(sent: Rows, g: Guard, k: Key, tx: StoredTx)
    requires k in sent && Rewrites(sent[k], tx)
    ensures AtMostOne(sent, g) ==> AtMostOne(sent[k := tx], g)
    ensures NonePending(sent, g) ==> NonePending(sent[k := tx], g)
  {
    var sent' := sent[k := tx];
    assert forall j :: j in sent && IsPending(sent', g, j) ==> IsPending(sent, g, j);
    if AtMostOne(sent, g) {
      forall i, j
        ensures NotBothPending(sent', g, i, j)
      {
        assert NotBothPending(sent, g, i, j);
      }
    }
  }

  lemma AddedRowKeepsPending(sent: Rows, g: Guard, tx: StoredTx)
    requires tx.key !in sent && (Matches(g, tx) ==> NonePending(sent, g))
    ensures AtMostOne(sent, g) ==> AtMostOne(sent[tx.key := tx], g)
    ensures !Matches(g, tx) && NonePending(sent, g) ==> NonePending(sent[tx.key := tx], g)
  {
    var sent' := sent[tx.key := tx];
    assert forall j :: j in sent && IsPending(sent', g, j) ==> IsPending(sent, g, j);
    if AtMostOne(sent, g) {
      forall i, j
        ensures NotBothPending(sent', g, i, j)
      {
        assert NotBothPending(sent, g, i, j);
      }
    }
  }

  lemma RewriteKeepsPendingInv(s: State, k: Key, tx: StoredTx, s': State)
    requires PendingInv(s) && k in s.rows && Rewrites(s.rows[k], tx) && s' == Store(s, tx) && RowsInv(s')
    ensures PendingInv(s')
  {
    forall g | g in Guards()
      ensures AtMostOne(s'.everSent, g)
      ensures g in s.cleared ==> NonePending(s'.everSent, g)
    {
      RewriteKeepsPending(s.everSent, g, k, tx);
    }
  }

  lemma SendKeepsPendingInv(s: State, tx: StoredTx, used: set<Guard>, s': State)
    requires PendingInv(s) && IsNew(s, tx) && RowsInv(s')
    requires s' == Store(s, tx).(cleared := s.cleared - used)
    requires forall g :: g in Guards() && Matches(g, tx) ==> g in s.cleared && g in used
    ensures PendingInv(s')
  {
    forall g | g in Guards()
      ensures AtMostOne(s'.everSent, g)
      ensures g in s'.cleared ==> NonePending(s'.everSent, g)
    {
      AddedRowKeepsPending(s.everSent, g, tx);
    }
  }

  lemma PassedGuardHasNonePending(c: Config, s: State, g: Guard)
    requires RowsInv(s)
    requires !ActionPendingOrRecent(s.rows, g.action, s.block.number, c.distance, g.destination)
    ensures NonePending(s.everSent, g)
  {
    forall k | k in s.everSent
      ensures !IsPending(s.everSent, g, k)
    {
      if k in s.rows {
        assert !Blocks(s.rows[k], g.action, s.block.number, c.distance, g.destination);
      }
    }
  }

  /** A guarded send uses just its own guard. */
  lemma SendUsesItsGuard(s: State, g: Guard, tx: StoredTx)
    requires g in s.cleared && g in Guards() && Matches(g, tx)
    ensures forall h :: h in Guards() && Matches(h, tx) ==> h in s.cleared && h in {g}
  {
    forall h | h in Guards() && Matches(h, tx)
      ensures h == g
    {
      GuardsAreDisjoint(g, h, tx);
    }
  }

  lemma NextKeepsPendingInv(c: Config, s: State, step: Step, s': State)
    requires PendingInv(s) && Next(c, s, step, s')
    ensures PendingInv(s')
  {
    RowsKept(c, s, step, s');
    match step {
      case NewBlock(_) =>
      case PassGuard(g) => PassedGuardHasNonePending(c, s, g);
      case Send(g, tx) =>
        SendUsesItsGuard(s, g, tx);
        SendKeepsPendingInv(s, tx, {g}, s');
      case SendOther(tx) => SendKeepsPendingInv(s, tx, {}, s');
      case Resend(k, tx) => RewriteKeepsPendingInv(s, k, tx, s');
      case MarkMined(k, mined) => RewriteKeepsPendingInv(s, k, WithMinedBlock(s.rows[k], mined), s');
      case Prune =>
    }
  }

  lemma {:induction false} RunKeepsPendingInv(c: Config, states: seq<State>, steps: seq<Step>, i: nat)
    requires IsRun(c, states, steps) && i < |states|
    ensures PendingInv(states[i])
  {
    if i > 0 {
      RunKeepsPendingInv(c, states, steps, i - 1);
      assert StepAt(c, states, steps, i - 1);
      NextKeepsPendingInv(c, states[i - 1], steps[i - 1], states[i]);
    }
  }

  /** In every run, whatever the configuration, no guarded action is pending twice. */
  lemma AtMostOnePending(c: Config, states: seq<State>, steps: seq<Step>, i: nat, g: Guard, j: Key, k: Key)
    requires IsRun(c, states, steps) && i < |states| && g in Guards()
    requires j in states[i].rows && Matches(g, states[i].rows[j]) && states[i].rows[j].Pending()
    requires k in states[i].rows && Matches(g, states[i].rows[k]) && states[i].rows[k].Pending()
    ensures j == k
  {
    RunKeepsPendingInv(c, states, steps, i);
    var sent := states[i].everSent;
    assert AtMostOne(sent, g) && NotBothPending(sent, g, j, k);
  }

  // ---------- Spacing ----------

  /** The transaction was mined more than the guard's distance before the given block. */
  predicate LongMined(c: Config, tx: StoredTx, block: int) {
    tx.minedBlock.Some? && block - tx.minedBlock.value.number > c.distance
  }

  ghost predicate AllLongMined(c: Config, sent: Rows, g: Guard, block: int) {
    forall k :: k in sent && Matches(g, sent[k]) ==> LongMined(c, sent[k], block)
  }

  /** What is gone from the store no longer concerns any guard, nor does any guard that was passed. */
  ghost predicate SpacingInv(c: Config, s: State) {
    && (forall k :: k in s.everSent && k !in s.rows ==> LongMined(c, s.everSent[k], s.block.number))
    && (forall g :: g in s.cleared ==> AllLongMined(c, s.everSent, g, s.block.number))
  }

  lemma PassedGuardIsClear(c: Config, s: State, g: Guard)
    requires RowsInv(s) && SpacingInv(c, s)
    requires !ActionPendingOrRecent(s.rows, g.action, s.block.number, c.distance, g.destination)
    ensures AllLongMined(c, s.everSent, g, s.block.number)
  {
    forall k | k in s.everSent && Matches(g, s.everSent[k])
      ensures LongMined(c, s.everSent[k], s.block.number)
    {
      if k in s.rows {
        assert !Blocks(s.rows[k], g.action, s.block.number, c.distance, g.destination);
      }
    }
  }

  lemma StoreKeepsLongMined(c: Config, sent: Rows, tx: StoredTx, g: Guard, block: int)
    requires AllLongMined(c, sent, g, block)
    requires if tx.key in sent then Rewrites(sent[tx.key], tx) else !Matches(g, tx)
    ensures AllLongMined(c, sent[tx.key := tx], g, block)
  {
    if tx.key in sent {
      assert !LongMined(c, sent[tx.key], block);
    }
  }

  lemma StoreKeepsSpacing(c: Config, s: State, tx: StoredTx, used: set<Guard>, s': State)
    requires RowsInv(s) && SpacingInv(c, s) && s' == Store(s, tx).(cleared := s.cleared - used)
    requires tx.key in s.everSent ==> tx.key in s.rows && Rewrites(s.everSent[tx.key], tx)
    requires forall g :: g in s.cleared && tx.key !in s.everSent && Matches(g, tx) ==> g in used
    ensures SpacingInv(c, s')
  {
    forall g | g in s'.cleared
      ensures AllLongMined(c, s'.everSent, g, s'.block.number)
    {
      StoreKeepsLongMined(c, s.everSent, tx, g, s.block.number);
    }
  }

  lemma NextKeepsSpacing(c: Config, s: State, step: Step, s': State)
    requires c.pruneAfterBlocks > c.distance && PendingInv(s) && SpacingInv(c, s) && Next(c, s, step, s')
    ensures SpacingInv(c, s')
  {
    match step {
      case NewBlock(_) =>
      case PassGuard(g) => PassedGuardIsClear(c, s, g);
      case Send(g, tx) =>
        SendUsesItsGuard(s, g, tx);
        StoreKeepsSpacing(c, s, tx, {g}, s');
      case SendOther(tx) => StoreKeepsSpacing(c, s, tx, {}, s');
      case Resend(k, tx) => StoreKeepsSpacing(c, s, tx, {}, s');
      case MarkMined(k, mined) => StoreKeepsSpacing(c, s, WithMinedBlock(s.rows[k], mined), {}, s');
      case Prune =>
    }
  }

  lemma {:induction false} RunKeepsSpacing(c: Config, states: seq<State>, steps: seq<Step>, i: nat)
    requires c.pruneAfterBlocks > c.distance && IsRun(c, states, steps) && i < |states|
    ensures SpacingInv(c, states[i])
  {
    if i > 0 {
      RunKeepsSpacing(c, states, steps, i - 1);
      RunKeepsPendingInv(c, states, steps, i - 1);
      assert StepAt(c, states, steps, i - 1);
      NextKeepsSpacing(c, states[i - 1], steps[i - 1], states[i]);
    }
  }

  /**
   When a guarded action is sent, every earlier one of its kind that the store has held during the run has been
   mined for more than the configured distance of blocks, in every run of a server that keeps transactions for more
   blocks than the guard looks back.
   */
  lemma ActionsAreSpaced(c: Config, states: seq<State>, steps: seq<Step>, i: nat, k: Key)
    requires c.pruneAfterBlocks > c.distance && IsRun(c, states, steps) && i < |steps|
    requires steps[i].Send? && k in states[i].everSent && Matches(steps[i].guard, states[i].everSent[k])
    ensures LongMined(c, states[i].everSent[k], steps[i].tx.creationBlock.number)
  {
    RunKeepsPendingInv(c, states, steps, i);
    RunKeepsSpacing(c, states, steps, i);
    assert StepAt(c, states, steps, i);
  }

  // ---------- When the spacing holds ----------

  predicate IsSpacedSend(c: Config, s: State, step: Step, k: Key) {
    step.Send? && k in s.everSent && Matches(step.guard, s.everSent[k]) ==>
      LongMined(c, s.everSent[k], step.tx.creationBlock.number)
  }

  ghost predicate RunIsSpaced(c: Config, states: seq<State>, steps: seq<Step>) {
    IsRun(c, states, steps) ==>
      forall i, k :: 0 <= i < |steps| && i < |states| ==> IsSpacedSend(c, states[i], steps[i], k)
  }

  ghost predicate AllRunsAreSpaced(c: Config) {
    forall states: seq<State>, steps: seq<Step> :: RunIsSpaced(c, states, steps)
  }

  /** The spacing of guarded actions holds in every run if and only if pruning waits longer than the guard looks back. */
  lemma SpacingHoldsIffKeptLongEnough(c: Config)
    ensures AllRunsAreSpaced(c) <==> c.pruneAfterBlocks > c.distance
  {
    if c.pruneAfterBlocks > c.distance {
      forall states: seq<State>, steps: seq<Step>
        ensures RunIsSpaced(c, states, steps)
      {
        if IsRun(c, states, steps) {
          forall i, k | 0 <= i < |steps| && i < |states|
            ensures IsSpacedSend(c, states[i], steps[i], k)
          {
            if steps[i].Send? && k in states[i].everSent && Matches(steps[i].guard, states[i].everSent[k]) {
              ActionsAreSpaced(c, states, steps, i, k);
            }
          }
        }
      }
    } else {
      PrunedRunIsNotSpaced(c);
    }
  }

  const REGISTRATION := Guard(RegisterServer, None)

  function Registration(nonce: nat, block: Block, mined: Option<Block>): StoredTx {
    StoredTx(Key(Address(1), nonce), Call(Address(2), 0, CallData(0, 0), 0), Fees(1, 1), RegisterServer,
             block, 1, None, mined)
  }

  /** A registration already mined at block zero is pruned, and the guard lets the next one pass. */
  function PrunedSteps(c: Config): seq<Step> {
    [Prune, PassGuard(REGISTRATION), Send(REGISTRATION, Registration(1, PrunedBlock(c), None))]
  }

  function PrunedBlock(c: Config): Block {
    Block(if c.pruneAfterBlocks < 0 then 0 else c.pruneAfterBlocks, c.pruneAfterSeconds)
  }

  function PrunedStates(c: Config): seq<State> {
    var first, block := Registration(0, Block(0, 0), Some(Block(0, 0))), PrunedBlock(c);
    var second := Registration(1, block, None);
    [State(map[first.key := first], map[first.key := first], block, {}),
     State(map[], map[first.key := first], block, {}),
     State(map[], map[first.key := first], block, {REGISTRATION}),
     State(map[second.key := second], map[first.key := first, second.key := second], block, {})]
  }

  lemma PrunedRunIsRun(c: Config)
    ensures IsRun(c, PrunedStates(c), PrunedSteps(c))
  {
    var states, steps := PrunedStates(c), PrunedSteps(c);
    var first := Registration(0, Block(0, 0), Some(Block(0, 0)));
    assert states[0].rows[first.key] == first;
    forall g | g in Guards()
      ensures AtMostOne(states[0].rows, g)
    {
      assert forall j, k :: NotBothPending(states[0].rows, g, j, k);
    }
    forall i | 0 <= i < |steps|
      ensures StepAt(c, states, steps, i)
    {
      PrunedRunStep(c, i);
    }
  }

  lemma PrunedRunStep(c: Config, i: nat)
    requires i < 3
    ensures StepAt(c, PrunedStates(c), PrunedSteps(c), i)
  {
    var states, first, block := PrunedStates(c), Registration(0, Block(0, 0), Some(Block(0, 0))), PrunedBlock(c);
    if i == 0 {
      assert RemoveArchived(states[0].rows, block.number - c.pruneAfterBlocks, block.timestamp - c.pruneAfterSeconds)
          == map[];
    } else if i == 2 {
      assert states[2].cleared - {REGISTRATION} == {};
    }
  }

  lemma PrunedRunIsNotSpaced(c: Config)
    requires c.pruneAfterBlocks <= c.distance
    ensures !AllRunsAreSpaced(c)
  {
    var states, steps := PrunedStates(c), PrunedSteps(c);
    PrunedRunIsRun(c);
    assert !IsSpacedSend(c, states[2], steps[2], Key(Address(1), 0));
    assert !RunIsSpaced(c, states, steps);
  }
}
