/**
 When the client accepts what the server answers. `validateMaxNonce` polls the nonce when a request arrives, but the
 send takes its nonce later, after those of the requests that overtake it.
 */
module NonceLimits {
  import opened Wrappers
  import opened StoredTransactions
  import opened TxStore
  import opened NoncePipeline
  import opened NonceSafety
  import opened ResendSpacing
  import opened PipelineGuarantees
  import opened NonceGap

  // ---------- The greatest nonce a request allows ----------

  predicate TakesNonceOf(s: State, step: Step, a: Address) {
    step.SendStep? && step.send == TakeNonce && s.server.Sender(step.p).Numbered?
    && s.server.Sender(step.p).request.signer == a
  }

  /** How many nonces of the signer are handed out in the steps from one state to another. */
  function HandedOut(states: seq<State>, steps: seq<Step>, from: nat, to: nat, a: Address): nat
    requires from <= to <= |steps| <= |states|
  {
    if from == to then 0
    else HandedOut(states, steps, from, to - 1, a) + (if TakesNonceOf(states[to - 1], steps[to - 1], a) then 1 else 0)
  }

  lemma StepHandsOut(c: Config, s: State, step: Step, s': State, a: Address)
    requires Inv(c, s) && Next(c, s, step, s')
    ensures |s'.server.Handed(a)| == |s.server.Handed(a)| + (if TakesNonceOf(s, step, a) then 1 else 0)
  {
    if step.WorkStep? {
      if IsMarkingStep(step.work) {
        MarkingFrame(s, step.work, s');
      } else if step.work.StoreAttempt? {
        StoreAttemptWrites(c, s, s');
      } else {
        QuietRoundFrame(c, s, step.work, s');
      }
    } else if step.SendStep? {
      SendHandsOut(c, s, step.p, step.send, s', a);
    }
  }

  lemma SendHandsOut(c: Config, s: State, p: nat, step: SendStep, s': State, a: Address)
    requires SenderNext(c, s, p, step, s')
    ensures |s'.server.Handed(a)| == |s.server.Handed(a)| + (if TakesNonceOf(s, SendStep(p, step), a) then 1 else 0)
  {
  }

  lemma {:induction false} RunHandsOut(
    c: Config, states: seq<State>, steps: seq<Step>, from: nat, to: nat, a: Address)
    requires IsRun(c, states, steps) && from <= to <= |steps|
    ensures |states[to].server.Handed(a)| == |states[from].server.Handed(a)| + HandedOut(states, steps, from, to, a)
  {
    if from < to {
      RunHandsOut(c, states, steps, from, to - 1, a);
      RunKeepsInv(c, states, steps, to - 1);
      assert StepAt(c, states, steps, to - 1);
      StepHandsOut(c, states[to - 1], steps[to - 1], states[to], a);
    }
  }

  /**
   A send takes the nonce that an earlier poll has returned plus one for each nonce handed out in between. So a
   request that passed the check for its greatest nonce is sent within it exactly if no more than the difference
   were handed out in between.
   */
  lemma CheckedNonceIsKeptIff(
    c: Config, states: seq<State>, steps: seq<Step>, t: nat, u: nat, a: Address, relayMaxNonce: nat)
    requires IsRun(c, states, steps) && t < u < |steps|
    requires AppliesPollOf(states[t], steps[t], a) && TakesNonceOf(states[u], steps[u], a)
    ensures var polled, taken := states[t + 1].server.Nonce(a), states[u].server.Sender(steps[u].p).nonce;
      && taken == polled + HandedOut(states, steps, t + 1, u, a)
      && (taken <= relayMaxNonce <==> HandedOut(states, steps, t + 1, u, a) <= relayMaxNonce - polled)
  {
    NonceCountsHanded(c, states, steps, t, t + 1, a);
    NonceCountsHanded(c, states, steps, t, u, a);
    RunHandsOut(c, states, steps, t + 1, u, a);
    TakenIsNonce(c, states, steps, u, a);
  }

  lemma NonceCountsHanded(c: Config, states: seq<State>, steps: seq<Step>, t: nat, i: nat, a: Address)
    requires IsRun(c, states, steps) && t < i < |states| && AppliesPollOf(states[t], steps[t], a)
    ensures states[i].server.Nonce(a) == Inherited(c, a) + |states[i].server.Handed(a)|
  {
    SynchronisedFromFirstPoll(c, states, steps, t, i, a);
    NoncesAreConsecutive(c, states, steps, i, a);
  }

  lemma TakenIsNonce(c: Config, states: seq<State>, steps: seq<Step>, u: nat, a: Address)
    requires IsRun(c, states, steps) && u < |steps| && TakesNonceOf(states[u], steps[u], a)
    ensures states[u].server.Sender(steps[u].p).nonce == states[u].server.Nonce(a)
  {
    RunKeepsInv(c, states, steps, u);
    assert SenderInv(c, states[u], states[u].server.Sender(steps[u].p));
  }

  // ---------- The whole answer ----------

  /** The row a send has written for the client's request. */
  predicate IsAsked(c: Config, client: Client, request: RelayRequest, tx: StoredTx) {
    && tx.key.signer == request.relayWorker && Some(tx.call.to) == client.hub && tx.call.data == request.content
    && tx.fees == RecordedFees(c.kind, request.fees)
  }

  predicate IsRelayCall(client: Client, row: StoredTx) {
    Some(row.call.to) == client.hub && row.call.data.selector == client.relayCall
  }

  /**
   In any reachable state in which a send answers its caller, the client accepts the whole answer exactly if the
   transaction is what it asked for or pays more, its nonce is within the limits, no row before it that the client
   does not know to be mined has been pruned, and all these rows are relay calls on its hub.
   */
  lemma AnswerIsAcceptedIff(
    c: Config, states: seq<State>, steps: seq<Step>, i: nat, p: nat, client: Client, request: RelayRequest,
    txs: seq<StoredTx>)
    requires IsRun(c, states, steps) && i < |states| && states[i].server.Sender(p).Answering?
    requires var key := states[i].server.Sender(p).tx.key;
      IsNonceRange(states[i].rows, key.signer, request.relayLastKnownNonce, Some(key.nonce - 1), txs)
    ensures var s, tx := states[i], states[i].server.Sender(p).tx;
      var mined := s.ChainOf(tx.key.signer).mined;
      Acceptable(client, request, Wire(c.kind, tx), Wires(c.kind, txs)) <==>
        && PaysEnough(request, Wire(c.kind, tx))
        && tx.key.signer == request.relayWorker && Some(tx.call.to) == client.hub && tx.call.data == request.content
        && request.relayLastKnownNonce <= tx.key.nonce <= request.relayMaxNonce
        && NothingMissing(s.rows, tx.key.signer, request.relayLastKnownNonce,
                          if mined < tx.key.nonce then mined else tx.key.nonce)
        && forall j :: 0 <= j < |txs| ==> IsRelayCall(client, txs[j])
  {
    RunKeepsInv(c, states, steps, i);
    var s, tx := states[i], states[i].server.Sender(p).tx;
    ReachableServerFillsGap(c, states, steps, i, p, request.relayLastKnownNonce, txs);
    if tx.key.signer == request.relayWorker {
      ServerGapIsHarmless(client, request, c.kind, s.rows, request.relayLastKnownNonce, tx.key.nonce, txs);
    }
  }

  /** For a send that did as the request asks only the nonces and the rows before it decide. */
  lemma AskedAnswerIsAcceptedIff(
    c: Config, states: seq<State>, steps: seq<Step>, i: nat, p: nat, client: Client, request: RelayRequest,
    txs: seq<StoredTx>)
    requires IsRun(c, states, steps) && i < |states| && states[i].server.Sender(p).Answering?
    requires var key := states[i].server.Sender(p).tx.key;
      IsNonceRange(states[i].rows, key.signer, request.relayLastKnownNonce, Some(key.nonce - 1), txs)
    requires IsAsked(c, client, request, states[i].server.Sender(p).tx)
    ensures var s, tx := states[i], states[i].server.Sender(p).tx;
      var mined := s.ChainOf(tx.key.signer).mined;
      Acceptable(client, request, Wire(c.kind, tx), Wires(c.kind, txs)) <==>
        && request.relayLastKnownNonce <= tx.key.nonce <= request.relayMaxNonce
        && NothingMissing(s.rows, tx.key.signer, request.relayLastKnownNonce,
                          if mined < tx.key.nonce then mined else tx.key.nonce)
        && forall j :: 0 <= j < |txs| ==> IsRelayCall(client, txs[j])
  {
    AnswerIsAcceptedIff(c, states, steps, i, p, client, request, txs);
  }
}
