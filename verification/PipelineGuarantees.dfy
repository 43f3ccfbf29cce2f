/** The outgoing-transaction protocol's guarantees, stated over whole runs. */
module PipelineGuarantees {
  import opened Wrappers
  import opened StoredTransactions
  import opened TxStore
  import opened NoncePipeline
  import opened NonceSafety
  import opened BoostRounds
  import opened ResendSpacing

  // ---------- Nonces ----------

  /**
   In every state of every run: no insert has been refused by the unique index; the nonces handed out to a
   signer so far are consecutive from its inherited pending count; and once its memory is synchronised, the
   chain's pending count never exceeds it, and it counts exactly the nonces handed out.
   */
  lemma NoncesAreConsecutive(c: Config, states: seq<State>, steps: seq<Step>, i: nat, a: Address)
    requires IsRun(c, states, steps) && i < |states|
    ensures var s := states[i];
      && (forall p: nat :: s.server.Sender(p) != Refused)
      && (forall j :: 0 <= j < |s.server.Handed(a)| ==> s.server.Handed(a)[j] == Inherited(c, a) + j)
      && (Inherited(c, a) <= s.server.Nonce(a) ==>
            && s.ChainOf(a).pending <= s.server.Nonce(a)
            && s.server.Nonce(a) == Inherited(c, a) + |s.server.Handed(a)|)
  {
    RunKeepsInv(c, states, steps, i);
    var s := states[i];
    assert AccountInv(c, s, a);
    forall p: nat
      ensures s.server.Sender(p) != Refused
    {
      assert SenderInv(c, s, s.server.Sender(p));
    }
  }

  /**
   In every state of every run, the nonces stored for a signer from the chain's mined count on are exactly
   those below its next one: the in-memory nonce, less the one a send may be about to insert. No boost round
   ever fails for a missing nonce.
   */
  lemma StoreHasNoGap(c: Config, states: seq<State>, steps: seq<Step>, i: nat, a: Address, n: nat)
    requires IsRun(c, states, steps) && i < |states|
    requires states[i].ChainOf(a).mined <= n
    ensures var s := states[i];
      && (Key(a, n) in s.rows <==>
            n < Inherited(c, a) || n < s.server.Nonce(a) - (if InFlight(s.server, a) then 1 else 0))
      && s.worker != MissingNonce
  {
    RunKeepsInv(c, states, steps, i);
    assert AccountInv(c, states[i], a);
  }

  /**
   What the first poll after a restart must report. Memory starts at zero; the send that follows inserts the
   polled count. It keeps the store free of holes and collisions exactly if that count is the next stored
   nonce: a smaller one (inherited transactions dropped from the pool) collides, a greater one leaves a hole.
   */
  lemma FirstPollDecides(rows: Rows, a: Address, mined: nat, next: nat, count: nat, tx: StoredTx)
    requires mined <= next && mined <= count
    requires forall n: nat :: mined <= n ==> (Key(a, n) in rows <==> n < next)
    requires tx.key == Key(a, PolledNonce(0, count)) && tx.attempts == 1
    ensures PutError(rows, tx, false) == Some(UniqueViolated) <==> count < next
    ensures (exists n: nat :: mined <= n < count && Key(a, n) !in rows) <==> count > next
    ensures (forall n: nat :: mined <= n ==> (Key(a, n) in rows[tx.key := tx] <==> n < next + 1)) <==> count == next
  {
    if count > next {
      assert Key(a, next) !in rows;
    }
    if count != next {
      assert Key(a, next) !in rows[tx.key := tx];
    } else {
      assert forall n: nat :: mined <= n ==> (Key(a, n) in rows[tx.key := tx] <==> Key(a, n) in rows || n == next);
    }
  }

  // ---------- What resending leaves alone ----------

  /** The parts of a row that no resend and no mined-marking touches. */
  predicate SameOrigin(x: StoredTx, y: StoredTx) {
    x.key == y.key && x.call == y.call && x.action == y.action && x.creationBlock == y.creationBlock
  }

  function TimesResent(resends: seq<Resend>, k: Key): nat {
    if resends == [] then 0
    else TimesResent(resends[..|resends| - 1], k) + (if resends[|resends| - 1].key == k then 1 else 0)
  }

  /** One step from `s` to `s'` as seen by a row present in both. */
  predicate RowEvolves(s: State, s': State, k: Key)
    requires k in s.rows && k in s'.rows
  {
    && SameOrigin(s.rows[k], s'.rows[k])
    && s'.rows[k].attempts + TimesResent(s.resends, k) == s.rows[k].attempts + TimesResent(s'.resends, k)
  }

  lemma StepEvolvesRow(c: Config, s: State, step: Step, s': State, k: Key)
    requires Inv(c, s) && Next(c, s, step, s') && k in s.rows && k in s'.rows
    ensures RowEvolves(s, s', k)
  {
    if !step.WorkStep? {
      OtherProcessesKeepRows(c, s, step, s');
    } else if step.work.StoreAttempt? {
      AttemptEvolvesRow(c, s, s', k);
    } else if IsMarkingStep(step.work) {
      MarkingEvolvesRow(c, s, step.work, s', k);
    } else {
      QuietRoundFrame(c, s, step.work, s');
    }
  }

  lemma AttemptEvolvesRow(c: Config, s: State, s': State, k: Key)
    requires Inv(c, s) && RoundNext(c, s, StoreAttempt, s') && k in s.rows && k in s'.rows
    ensures RowEvolves(s, s', k)
  {
    StoreAttemptWrites(c, s, s');
  }

  lemma MarkingEvolvesRow(c: Config, s: State, work: WorkStep, s': State, k: Key)
    requires Inv(c, s) && IsMarkingStep(work) && MarkingNext(s, work, s') && k in s.rows && k in s'.rows
    ensures RowEvolves(s, s', k)
  {
    MarkingFrame(s, work, s');
    if work.WriteMined? {
      MarkedRowEvolves(c, s, s', k);
    } else if work.Prune? {
      PruningKeepsRow(s, work, s', k);
    } else {
      QuietMarkingKeepsRows(s, work, s');
    }
  }

  lemma MarkedRowEvolves(c: Config, s: State, s': State, k: Key)
    requires Inv(c, s) && MarkingNext(s, WriteMined, s') && k in s.rows && k in s'.rows
    ensures SameOrigin(s.rows[k], s'.rows[k]) && s'.rows[k].attempts == s.rows[k].attempts
  {
    WriteMinedStep(c, s, s');
    ListAfterWrite(s.rows, s.worker.tx, s.worker.todo, WithMinedBlock(s.worker.tx, s.worker.minedBlock));
  }

  lemma PruningKeepsRow(s: State, work: WorkStep, s': State, k: Key)
    requires work.Prune? && MarkingNext(s, work, s') && k in s'.rows
    ensures k in s.rows && s'.rows[k] == s.rows[k]
  {
  }

  /** Marking and boosting neither add nor drop a row; only `Prune` drops rows, and only an insert adds one. */
  lemma WorkKeepsKeys(c: Config, s: State, work: WorkStep, s': State)
    requires Inv(c, s) && Next(c, s, WorkStep(work), s') && !work.Prune?
    ensures s'.rows.Keys == s.rows.Keys
  {
    if work.WriteMined? {
      WriteMinedStep(c, s, s');
      ListAfterWrite(s.rows, s.worker.tx, s.worker.todo, WithMinedBlock(s.worker.tx, s.worker.minedBlock));
    } else if work.StoreAttempt? {
      StoreAttemptWrites(c, s, s');
    } else if IsMarkingStep(work) {
      QuietMarkingKeepsRows(s, work, s');
    } else {
      QuietRoundFrame(c, s, work, s');
    }
  }

  lemma NextNonceNeverFalls(c: Config, s: State, step: Step, s': State, a: Address)
    requires Inv(c, s) && Next(c, s, step, s')
    ensures BookOf(c, s, a).Next() <= BookOf(c, s', a).Next()
  {
    NextKeepsInv(c, s, step, s');
    if step.WorkStep? {
      if IsMarkingStep(step.work) {
        MarkingFrame(s, step.work, s');
      } else if step.work.StoreAttempt? {
        StoreAttemptWrites(c, s, s');
      } else {
        QuietRoundFrame(c, s, step.work, s');
      }
    } else {
      NextNeverGoesBack(c, s, step, s');
    }
  }

  lemma NextNonceNeverFallsAt(c: Config, states: seq<State>, steps: seq<Step>, i: nat, a: Address)
    requires IsRun(c, states, steps) && i < |steps|
    ensures BookOf(c, states[i], a).Next() <= BookOf(c, states[i + 1], a).Next()
  {
    RunKeepsInv(c, states, steps, i);
    assert StepAt(c, states, steps, i);
    NextNonceNeverFalls(c, states[i], steps[i], states[i + 1], a);
  }

  lemma {:induction false} NextNonceNeverFallsInRun(
    c: Config, states: seq<State>, steps: seq<Step>, i: nat, j: nat, a: Address)
    requires IsRun(c, states, steps) && i <= j < |states|
    ensures BookOf(c, states[i], a).Next() <= BookOf(c, states[j], a).Next()
  {
    if i < j {
      NextNonceNeverFallsInRun(c, states, steps, i, j - 1, a);
      NextNonceNeverFallsAt(c, states, steps, j - 1, a);
    }
  }

  /** No step brings back a row whose nonce has been used. */
  lemma UsedNoncesStayAway(c: Config, s: State, step: Step, s': State, k: Key)
    requires Inv(c, s) && Next(c, s, step, s') && k.nonce < BookOf(c, s, k.signer).Next()
    ensures k in s'.rows ==> k in s.rows
  {
    if step.WorkStep? {
      if !step.work.Prune? {
        WorkKeepsKeys(c, s, step.work, s');
      }
    } else {
      OtherProcessesKeepRows(c, s, step, s');
    }
  }

  /**
   Between any two states of a run that both hold a row: its target, gas, data, value, sender, action and
   creation block are the same, and its attempts have grown by exactly the number of times it was resent.
   */
  lemma {:induction false} RowsKeepTheirOrigin(
    c: Config, states: seq<State>, steps: seq<Step>, i: nat, j: nat, k: Key)
    requires IsRun(c, states, steps) && i <= j < |states|
    requires k in states[i].rows && k in states[j].rows
    ensures RowEvolves(states[i], states[j], k)
  {
    if i < j {
      RowIsOld(c, states, steps, i, j - 1, k);
      RowEvolvesAt(c, states, steps, j - 1, k);
      RowsKeepTheirOrigin(c, states, steps, i, j - 1, k);
    }
  }

  lemma RowIsOld(c: Config, states: seq<State>, steps: seq<Step>, i: nat, j: nat, k: Key)
    requires IsRun(c, states, steps) && i <= j < |states| && k in states[i].rows
    ensures k.nonce < BookOf(c, states[j], k.signer).Next()
  {
    RunKeepsInv(c, states, steps, i);
    NextNonceNeverFallsInRun(c, states, steps, i, j, k.signer);
    assert RowInv(BookOf(c, states[i], k.signer), states[i].rows[k]);
  }

  lemma RowEvolvesAt(c: Config, states: seq<State>, steps: seq<Step>, i: nat, k: Key)
    requires IsRun(c, states, steps) && i < |steps|
    requires k.nonce < BookOf(c, states[i], k.signer).Next() && k in states[i + 1].rows
    ensures k in states[i].rows && RowEvolves(states[i], states[i + 1], k)
  {
    RunKeepsInv(c, states, steps, i);
    assert StepAt(c, states, steps, i);
    UsedNoncesStayAway(c, states[i], steps[i], states[i + 1], k);
    StepEvolvesRow(c, states[i], steps[i], states[i + 1], k);
  }

  /** Once a row has gone from the store, no later state of the run has it again: its nonce is never handed out anew. */
  lemma {:induction false} PrunedForGood(
    c: Config, states: seq<State>, steps: seq<Step>, i: nat, j: nat, m: nat, k: Key)
    requires IsRun(c, states, steps) && i <= j <= m < |states|
    requires k in states[i].rows && k !in states[j].rows
    ensures k !in states[m].rows
  {
    if j < m {
      PrunedForGood(c, states, steps, i, j, m - 1, k);
      RowIsOld(c, states, steps, i, m - 1, k);
      RunKeepsInv(c, states, steps, m - 1);
      assert StepAt(c, states, steps, m - 1);
      UsedNoncesStayAway(c, states[m - 1], steps[m - 1], states[m], k);
    }
  }

  // ---------- From the first poll on ----------

  /** The step is the one that takes over the reply to a poll for this signer, inside or outside the mutex. */
  predicate AppliesPollOf(s: State, step: Step, a: Address) {
    match step
    case SendStep(p, send) => send == ApplyPoll && s.server.Sender(p).Polled? && s.server.Sender(p).request.signer == a
    case PollStep(q, poll) => poll == ApplyReply && s.server.Poller(q).PollerReply? && s.server.Poller(q).signer == a
    case _ => false
  }

  lemma PollSynchronises(c: Config, s: State, step: Step, s': State, a: Address)
    requires Inv(c, s) && Next(c, s, step, s') && AppliesPollOf(s, step, a)
    ensures Inherited(c, a) <= s'.server.Nonce(a)
  {
    match step {
      case SendStep(p, _) => assert SenderInv(c, s, s.server.Sender(p));
      case PollStep(q, _) => assert PollerInv(c, s, s.server.Poller(q));
      case _ =>
    }
  }

  lemma MemoryNeverFalls(c: Config, s: State, step: Step, s': State, a: Address)
    requires Inv(c, s) && Next(c, s, step, s')
    ensures s.server.Nonce(a) <= s'.server.Nonce(a)
  {
    if step.WorkStep? {
      if IsMarkingStep(step.work) {
        MarkingFrame(s, step.work, s');
      } else if step.work.StoreAttempt? {
        StoreAttemptWrites(c, s, s');
      } else {
        QuietRoundFrame(c, s, step.work, s');
      }
    } else if step.SendStep? {
      SendNeverLowersMemory(c, s, step.p, step.send, s', a);
    }
  }

  lemma SendNeverLowersMemory(c: Config, s: State, p: nat, step: SendStep, s': State, a: Address)
    requires SenderNext(c, s, p, step, s')
    ensures s.server.Nonce(a) <= s'.server.Nonce(a)
  {
  }

  lemma MemoryNeverFallsAt(c: Config, states: seq<State>, steps: seq<Step>, i: nat, a: Address)
    requires IsRun(c, states, steps) && i < |steps|
    ensures states[i].server.Nonce(a) <= states[i + 1].server.Nonce(a)
    ensures AppliesPollOf(states[i], steps[i], a) ==> Inherited(c, a) <= states[i + 1].server.Nonce(a)
  {
    RunKeepsInv(c, states, steps, i);
    assert StepAt(c, states, steps, i);
    MemoryNeverFalls(c, states[i], steps[i], states[i + 1], a);
    if AppliesPollOf(states[i], steps[i], a) {
      PollSynchronises(c, states[i], steps[i], states[i + 1], a);
    }
  }

  lemma {:induction false} MemoryNeverFallsInRun(
    c: Config, states: seq<State>, steps: seq<Step>, i: nat, j: nat, a: Address)
    requires IsRun(c, states, steps) && i <= j < |states|
    ensures states[i].server.Nonce(a) <= states[j].server.Nonce(a)
  {
    if i < j {
      MemoryNeverFallsInRun(c, states, steps, i, j - 1, a);
      MemoryNeverFallsAt(c, states, steps, j - 1, a);
    }
  }

  /** From the first poll of a signer on, its memory is synchronised, so `NoncesAreConsecutive` speaks of it. */
  lemma SynchronisedFromFirstPoll(c: Config, states: seq<State>, steps: seq<Step>, i: nat, j: nat, a: Address)
    requires IsRun(c, states, steps) && i < j < |states| && AppliesPollOf(states[i], steps[i], a)
    ensures Inherited(c, a) <= states[j].server.Nonce(a) && states[j].ChainOf(a).pending <= states[j].server.Nonce(a)
  {
    MemoryNeverFallsAt(c, states, steps, i, a);
    MemoryNeverFallsInRun(c, states, steps, i + 1, j, a);
    NoncesAreConsecutive(c, states, steps, j, a);
  }
}
