/** What is sent is what was asked for: over every run, whatever the other processes do meanwhile. */
module SentRequests {
  import opened Wrappers
  import opened StoredTransactions
  import opened TxStore
  import opened NoncePipeline
  import opened NonceSafety
  import opened BoostRounds
  import opened ResendSpacing
  import opened PipelineGuarantees

  predicate Submits(step: Step, p: nat) {
    step.SendStep? && step.p == p && step.send.Submit?
  }

  /** The request the sender has submitted last, in the first `i` steps. */
  function SubmittedBy(steps: seq<Step>, i: nat, p: nat): Option<Request>
    requires i <= |steps|
  {
    if i == 0 then None
    else if Submits(steps[i - 1], p) then Some(steps[i - 1].send.request)
    else SubmittedBy(steps, i - 1, p)
  }

  /** A busy sender works on that request; once it has a nonce, its transaction carries it. */
  predicate WorksOn(kind: TransactionType, pc: Sender, submitted: Option<Request>) {
    match pc
    case Idle => true
    case Refused => true
    case Waiting(request) => submitted == Some(request)
    case Polling(request) => submitted == Some(request)
    case Polled(request, _) => submitted == Some(request)
    case Numbered(request, _) => submitted == Some(request)
    case Storing(tx) => submitted.Some? && Carries(kind, tx, submitted.value)
    case Inserting(tx) => submitted.Some? && Carries(kind, tx, submitted.value)
    case Broadcasting(tx) => submitted.Some? && Carries(kind, tx, submitted.value)
    case Answering(tx) => submitted.Some? && Carries(kind, tx, submitted.value)
  }

  lemma SendKeepsWork(c: Config, s: State, p: nat, step: SendStep, s': State, q: nat, submitted: Option<Request>)
    requires SenderNext(c, s, p, step, s') && WorksOn(c.kind, s.server.Sender(q), submitted)
    ensures WorksOn(c.kind, s'.server.Sender(q),
                    if p == q && step.Submit? then Some(step.request) else submitted)
  {
  }

  lemma OthersKeepSenders(c: Config, s: State, step: Step, s': State)
    requires Inv(c, s) && Next(c, s, step, s') && !step.SendStep?
    ensures s'.server.senders == s.server.senders
  {
    if step.WorkStep? {
      if IsMarkingStep(step.work) {
        MarkingFrame(s, step.work, s');
      } else if step.work.StoreAttempt? {
        StoreAttemptWrites(c, s, s');
      } else {
        QuietRoundFrame(c, s, step.work, s');
      }
    }
  }

  /** In every state of every run a sender's transaction is the one of the request it has submitted. */
  lemma {:induction false} SendersCarryRequests(c: Config, states: seq<State>, steps: seq<Step>, i: nat, p: nat)
    requires IsRun(c, states, steps) && i < |states|
    ensures WorksOn(c.kind, states[i].server.Sender(p), SubmittedBy(steps, i, p))
  {
    if i > 0 {
      SendersCarryRequests(c, states, steps, i - 1, p);
      RunKeepsInv(c, states, steps, i - 1);
      assert StepAt(c, states, steps, i - 1);
      if steps[i - 1].SendStep? {
        SendKeepsWork(c, states[i - 1], steps[i - 1].p, steps[i - 1].send, states[i], p, SubmittedBy(steps, i - 1, p));
      } else {
        OthersKeepSenders(c, states[i - 1], steps[i - 1], states[i]);
      }
    }
  }

  // ---------- The stored rows ----------

  /** Some request submitted in the first `i` steps asks for this row; a resend may have changed its fees. */
  ghost predicate WasAskedFor(steps: seq<Step>, i: nat, tx: StoredTx)
    requires i <= |steps|
  {
    exists j :: 0 <= j < i && AsksFor(steps[j], tx)
  }

  predicate AsksFor(step: Step, tx: StoredTx) {
    step.SendStep? && step.send.Submit? &&
    var r := step.send.request;
    tx.key.signer == r.signer && tx.call == r.call && tx.action == r.action && tx.creationBlock == r.block
  }

  lemma {:induction false} CarriedWasAskedFor(
    steps: seq<Step>, i: nat, p: nat, kind: TransactionType, tx: StoredTx)
    requires i <= |steps| && SubmittedBy(steps, i, p).Some? && Carries(kind, tx, SubmittedBy(steps, i, p).value)
    ensures WasAskedFor(steps, i, tx)
  {
    if Submits(steps[i - 1], p) {
      assert AsksFor(steps[i - 1], tx);
    } else {
      CarriedWasAskedFor(steps, i - 1, p, kind, tx);
    }
  }

  /** A row that appears is the one an inserting sender holds. */
  lemma NewRowIsInserted(c: Config, s: State, step: Step, s': State, k: Key)
    requires Inv(c, s) && Next(c, s, step, s') && k in s'.rows && k !in s.rows
    ensures step.SendStep? && s.server.Sender(step.p).Inserting? && s'.rows[k] == s.server.Sender(step.p).tx
  {
    if step.WorkStep? {
      WorkAddsNoRow(c, s, step.work, s');
    } else if step.SendStep? && !step.send.Insert? {
      QuietSendKeepsRows(c, s, step.p, step.send, s');
    }
  }

  lemma WorkAddsNoRow(c: Config, s: State, work: WorkStep, s': State)
    requires Inv(c, s) && Next(c, s, WorkStep(work), s')
    ensures s'.rows.Keys <= s.rows.Keys
  {
    if !work.Prune? {
      WorkKeepsKeys(c, s, work, s');
    }
  }

  /** Every row stored in the run, resent or marked or not, is one that was asked for. */
  lemma {:induction false} RowsWereAskedFor(c: Config, states: seq<State>, steps: seq<Step>, i: nat, k: Key)
    requires IsRun(c, states, steps) && i < |states| && k in states[i].rows && k !in states[0].rows
    ensures WasAskedFor(steps, i, states[i].rows[k])
  {
    if k in states[i - 1].rows {
      RowsWereAskedFor(c, states, steps, i - 1, k);
      RowStaysAskedFor(c, states, steps, i - 1, k);
    } else {
      NewRowWasAskedFor(c, states, steps, i - 1, k);
    }
  }

  lemma RowStaysAskedFor(c: Config, states: seq<State>, steps: seq<Step>, i: nat, k: Key)
    requires IsRun(c, states, steps) && i < |steps| && k in states[i].rows && k in states[i + 1].rows
    requires WasAskedFor(steps, i, states[i].rows[k])
    ensures WasAskedFor(steps, i + 1, states[i + 1].rows[k])
  {
    RunKeepsInv(c, states, steps, i);
    assert StepAt(c, states, steps, i);
    StepEvolvesRow(c, states[i], steps[i], states[i + 1], k);
    var j :| 0 <= j < i && AsksFor(steps[j], states[i].rows[k]);
    assert AsksFor(steps[j], states[i + 1].rows[k]);
  }

  lemma NewRowWasAskedFor(c: Config, states: seq<State>, steps: seq<Step>, i: nat, k: Key)
    requires IsRun(c, states, steps) && i < |steps| && k !in states[i].rows && k in states[i + 1].rows
    ensures WasAskedFor(steps, i + 1, states[i + 1].rows[k])
  {
    RunKeepsInv(c, states, steps, i);
    assert StepAt(c, states, steps, i);
    NewRowIsInserted(c, states[i], steps[i], states[i + 1], k);
    SendersCarryRequests(c, states, steps, i, steps[i].p);
    CarriedWasAskedFor(steps, i, steps[i].p, c.kind, states[i + 1].rows[k]);
    var j :| 0 <= j < i && AsksFor(steps[j], states[i + 1].rows[k]);
  }
}
