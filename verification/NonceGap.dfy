/**
 The client's check of a relay's answer (`RelayedTransactionValidator.ts`) against what the server fills the
 nonce gap with (`getNonceGapFilled`). Decoding a raw transaction recovers its sender, so a raw transaction
 is a record here. A gap is the list of values of the `nonceGapFilled` object, which JavaScript enumerates
 in ascending order of its integer keys.
 */
module NonceGap {
  import opened Wrappers
  import opened StoredTransactions
  import opened TxStore
  import opened NoncePipeline
  import opened NonceSafety

  datatype WireFees = LegacyPrice(gasPrice: nat) | FeeMarketPrice(fees: Fees) | OtherType

  datatype WireTx = WireTx(sender: Address, nonce: nat, to: Option<Address>, data: CallData, price: WireFees)

  /** What the client knows: `content` is the encoding of its own request. */
  datatype RelayRequest = RelayRequest(
    relayWorker: Address, fees: Fees, content: CallData, relayLastKnownNonce: nat, relayMaxNonce: nat)

  /** `hub` is the client's RelayHub, if configured, and `relayCall` the selector of its method. */
  datatype Client = Client(hub: Option<Address>, relayCall: nat)

  datatype GasPriceValidation = GasPriceValidation(
    isTransactionTypeValid: bool, isFeeMarket1559Transaction: bool, isLegacyGasPriceValid: bool,
    isMaxFeePerGasValid: bool, isMaxPriorityFeePerGasValid: bool)

  datatype TxValidation = TxValidation(
    gasPriceValidation: GasPriceValidation, nonceGapFilledValidation: seq<TxValidation>,
    isNonceGapFilledSizeValid: bool, isTransactionTargetValid: bool, isTransactionSenderValid: bool,
    isTransactionContentValid: bool, isTransactionNonceValid: bool)

  predicate IsGasPriceValid(gas: GasPriceValidation) {
    && gas.isTransactionTypeValid
    && (gas.isLegacyGasPriceValid
        || (gas.isFeeMarket1559Transaction && gas.isMaxFeePerGasValid && gas.isMaxPriorityFeePerGasValid))
  }

  predicate IsTransactionValid(result: TxValidation) {
    && IsGasPriceValid(result.gasPriceValidation)
    && (forall i :: 0 <= i < |result.nonceGapFilledValidation| ==>
          IsTransactionValid(result.nonceGapFilledValidation[i]))
    && result.isTransactionTargetValid
    && result.isTransactionSenderValid
    && result.isTransactionContentValid
    && result.isNonceGapFilledSizeValid
    && result.isTransactionNonceValid
  }

  function ValidateTarget(client: Client, tx: WireTx): bool {
    tx.to.Some? && tx.to == client.hub
  }

  function ValidateInNonceGap(client: Client, request: RelayRequest, tx: WireTx, expectedNonce: nat): TxValidation {
    TxValidation(GasPriceValidation(true, true, true, true, true), [], true,
                 ValidateTarget(client, tx), tx.sender == request.relayWorker,
                 tx.data.selector == client.relayCall, tx.nonce == expectedNonce)
  }

  /** The flags make up a valid price exactly if the offered price covers the requested one, and name the kind. */
  method ValidateGasPrice(request: RelayRequest, tx: WireTx) returns (r: GasPriceValidation)
    ensures IsGasPriceValid(r) <==> PaysEnough(request, tx)
    ensures (r.isTransactionTypeValid <==> !tx.price.OtherType?)
         && (r.isFeeMarket1559Transaction <==> tx.price.FeeMarketPrice?)
    ensures r.isLegacyGasPriceValid <==> tx.price.LegacyPrice? && request.fees.max <= tx.price.gasPrice
    ensures r.isMaxFeePerGasValid <==> tx.price.FeeMarketPrice? && request.fees.max <= tx.price.fees.max
    ensures r.isMaxPriorityFeePerGasValid <==> tx.price.FeeMarketPrice? && request.fees.priority <= tx.price.fees.priority
  {
    var isTransactionTypeValid := true;
    var isFeeMarket1559Transaction := false;
    var isLegacyGasPriceValid := false;
    var isMaxFeePerGasValid := false;
    var isMaxPriorityFeePerGasValid := false;
    match tx.price {
      case LegacyPrice(gasPrice) =>
        isLegacyGasPriceValid := gasPrice >= request.fees.max;
      case FeeMarketPrice(fees) =>
        isFeeMarket1559Transaction := true;
        isMaxPriorityFeePerGasValid := fees.priority >= request.fees.priority;
        isMaxFeePerGasValid := fees.max >= request.fees.max;
      case OtherType =>
        isTransactionTypeValid := false;
    }
    r := GasPriceValidation(isTransactionTypeValid, isFeeMarket1559Transaction, isLegacyGasPriceValid,
                            isMaxFeePerGasValid, isMaxPriorityFeePerGasValid);
  }

  method ValidateNonceGapFilled(client: Client, request: RelayRequest, gap: seq<WireTx>)
    returns (result: seq<TxValidation>)
    ensures result == GapValidation(client, request, gap)
    ensures |result| == |gap|
    ensures forall i :: 0 <= i < |gap| ==>
      && IsGasPriceValid(result[i].gasPriceValidation) && result[i].nonceGapFilledValidation == []
      && result[i].isNonceGapFilledSizeValid
      && (result[i].isTransactionTargetValid <==> gap[i].to.Some? && gap[i].to == client.hub)
      && (result[i].isTransactionSenderValid <==> gap[i].sender == request.relayWorker)
      && (result[i].isTransactionContentValid <==> gap[i].data.selector == client.relayCall)
      && (result[i].isTransactionNonceValid <==> gap[i].nonce == request.relayLastKnownNonce + i)
  {
    result := [];
    var expectedNonce := request.relayLastKnownNonce;
    for i := 0 to |gap|
      invariant expectedNonce == request.relayLastKnownNonce + i
      invariant result == GapValidation(client, request, gap[..i])
    {
      result := result + [ValidateInNonceGap(client, request, gap[i], expectedNonce)];
      expectedNonce := expectedNonce + 1;
    }
    assert gap[..|gap|] == gap;
  }

  function GapValidation(client: Client, request: RelayRequest, gap: seq<WireTx>): seq<TxValidation> {
    seq(|gap|, i requires 0 <= i < |gap| =>
      ValidateInNonceGap(client, request, gap[i], request.relayLastKnownNonce + i))
  }

  method ValidateRelayResponse(client: Client, request: RelayRequest, tx: WireTx, gap: seq<WireTx>)
    returns (result: TxValidation)
    ensures IsTransactionValid(result) <==> Acceptable(client, request, tx, gap)
    ensures result.isTransactionTargetValid <==> tx.to.Some? && tx.to == client.hub
    ensures result.isTransactionSenderValid <==> tx.sender == request.relayWorker
    ensures result.isTransactionContentValid <==> tx.data == request.content
    ensures result.isTransactionNonceValid <==> tx.nonce <= request.relayMaxNonce
    ensures result.isNonceGapFilledSizeValid <==> |gap| == tx.nonce - request.relayLastKnownNonce
  {
    var isNonceGapFilledSizeValid := |gap| == tx.nonce - request.relayLastKnownNonce;
    var gasPrice := ValidateGasPrice(request, tx);
    var nonceGap := ValidateNonceGapFilled(client, request, gap);
    result := TxValidation(gasPrice, nonceGap, isNonceGapFilledSizeValid, ValidateTarget(client, tx),
                           tx.sender == request.relayWorker, tx.data == request.content,
                           tx.nonce <= request.relayMaxNonce);
    GapIsValid(client, request, gap);
  }

  // ---------- What acceptance means ----------

  /** The offered gas price covers the requested one. */
  predicate PaysEnough(request: RelayRequest, tx: WireTx) {
    match tx.price
    case LegacyPrice(gasPrice) => gasPrice >= request.fees.max
    case FeeMarketPrice(fees) => fees.AtLeast(request.fees)
    case OtherType => false
  }

  /** A transaction the worker may have put before the client's: a relay call of the same worker on the same hub. */
  predicate HarmlessPredecessor(client: Client, request: RelayRequest, tx: WireTx) {
    tx.sender == request.relayWorker && ValidateTarget(client, tx) && tx.data.selector == client.relayCall
  }

  predicate FillsGap(lastKnown: nat, nonce: nat, gap: seq<WireTx>) {
    |gap| == nonce - lastKnown && forall i :: 0 <= i < |gap| ==> gap[i].nonce == lastKnown + i
  }

  predicate Acceptable(client: Client, request: RelayRequest, tx: WireTx, gap: seq<WireTx>) {
    && PaysEnough(request, tx)
    && ValidateTarget(client, tx) && tx.sender == request.relayWorker && tx.data == request.content
    && tx.nonce <= request.relayMaxNonce
    && FillsGap(request.relayLastKnownNonce, tx.nonce, gap)
    && forall i :: 0 <= i < |gap| ==> HarmlessPredecessor(client, request, gap[i])
  }

  lemma GapIsValid(client: Client, request: RelayRequest, gap: seq<WireTx>)
    ensures (forall i :: 0 <= i < |gap| ==> IsTransactionValid(GapValidation(client, request, gap)[i]))
      <==> (forall i :: 0 <= i < |gap| ==>
              gap[i].nonce == request.relayLastKnownNonce + i && HarmlessPredecessor(client, request, gap[i]))
  {
    var results := GapValidation(client, request, gap);
    forall i | 0 <= i < |gap|
      ensures IsTransactionValid(results[i]) <==>
        gap[i].nonce == request.relayLastKnownNonce + i && HarmlessPredecessor(client, request, gap[i])
    {
      assert results[i] == ValidateInNonceGap(client, request, gap[i], request.relayLastKnownNonce + i);
    }
  }

  /** An accepted gap holds every nonce from the last known one up to the transaction's own exactly once, and no other. */
  lemma AcceptedGapIsExact(client: Client, request: RelayRequest, tx: WireTx, gap: seq<WireTx>, n: nat)
    requires Acceptable(client, request, tx, gap)
    ensures request.relayLastKnownNonce <= tx.nonce <= request.relayMaxNonce
    ensures request.relayLastKnownNonce <= n < tx.nonce <==> exists i :: 0 <= i < |gap| && gap[i].nonce == n
    ensures forall i, j :: 0 <= i < |gap| && 0 <= j < |gap| && gap[i].nonce == gap[j].nonce ==> i == j
  {
    if request.relayLastKnownNonce <= n < tx.nonce {
      assert gap[n - request.relayLastKnownNonce].nonce == n;
    }
  }

  // ---------- The server's side ----------

  /** The raw transaction a stored row was signed as. */
  function Wire(kind: TransactionType, row: StoredTx): WireTx {
    WireTx(row.key.signer, row.key.nonce, Some(row.call.to), row.call.data,
           match kind case Legacy => LegacyPrice(row.fees.max) case FeeMarket => FeeMarketPrice(row.fees))
  }

  function Wires(kind: TransactionType, rows: seq<StoredTx>): (gap: seq<WireTx>)
    ensures |gap| == |rows|
    ensures forall i :: 0 <= i < |rows| ==> gap[i] == Wire(kind, rows[i])
  {
    seq(|rows|, i requires 0 <= i < |rows| => Wire(kind, rows[i]))
  }

  /** `gap` is the signed form of the stored rows in the range, one for each, in ascending order of nonce. */
  ghost predicate IsServedGap(
    rows: Rows, kind: TransactionType, signer: Address, from: nat, to: int, gap: seq<WireTx>)
  {
    exists txs :: IsNonceRange(rows, signer, from, Some(to), txs) && gap == Wires(kind, txs)
  }

  /** A stored row as the client sees it, when it is decoded. */
  predicate IsSignedFormOf(kind: TransactionType, tx: WireTx, row: StoredTx) {
    && tx.sender == row.key.signer && tx.nonce == row.key.nonce
    && tx.to == Some(row.call.to) && tx.data == row.call.data
    && (kind.Legacy? ==> tx.price == LegacyPrice(row.fees.max))
    && (kind.FeeMarket? ==> tx.price == FeeMarketPrice(Fees(row.fees.max, row.fees.priority)))
  }

  /** Each transaction of a served gap is a stored one of the signer in the range, and each such one is in the gap. */
  lemma ServedGapExactly(
    rows: Rows, kind: TransactionType, signer: Address, from: nat, to: int, gap: seq<WireTx>, nonce: nat)
    requires WellKeyed(rows) && IsServedGap(rows, kind, signer, from, to, gap)
    ensures from <= nonce <= to && Key(signer, nonce) in rows <==> exists i :: 0 <= i < |gap| && gap[i].nonce == nonce
    ensures forall i :: 0 <= i < |gap| ==>
      && from <= gap[i].nonce <= to && Key(signer, gap[i].nonce) in rows
      && IsSignedFormOf(kind, gap[i], rows[Key(signer, gap[i].nonce)])
    ensures forall i, j :: 0 <= i < j < |gap| ==> gap[i].nonce < gap[j].nonce
  {
    var txs :| IsNonceRange(rows, signer, from, Some(to), txs) && gap == Wires(kind, txs);
    forall i | 0 <= i < |gap|
      ensures from <= gap[i].nonce <= to && Key(signer, gap[i].nonce) in rows
      ensures IsSignedFormOf(kind, gap[i], rows[Key(signer, gap[i].nonce)])
    {
      assert InRange(txs[i], signer, from, Some(to));
    }
    if from <= nonce <= to && Key(signer, nonce) in rows {
      var row := rows[Key(signer, nonce)];
      assert InRange(row, signer, from, Some(to));
      var i :| 0 <= i < |txs| && txs[i] == row;
      assert gap[i].nonce == nonce;
    }
  }

  method GetNonceGapFilled(store: TxStoreManager, kind: TransactionType, signer: Address, from: nat, to: int)
    returns (gap: seq<WireTx>)
    requires store.Valid()
    ensures IsServedGap(store.View(), kind, signer, from, to, gap)
  {
    var transactions := store.GetTxsInNonceRange(signer, from, Some(to));
    gap := [];
    for i := 0 to |transactions|
      invariant gap == Wires(kind, transactions[..i])
    {
      gap := gap + [Wire(kind, transactions[i])];
    }
    assert transactions[..|transactions|] == transactions;
  }

  /** Exactly when the server's gap passes the size check and every nonce check of the client. */
  lemma ServerFillsGap(kind: TransactionType, rows: Rows, worker: Address, lastKnown: nat, nonce: nat, txs: seq<StoredTx>)
    requires WellKeyed(rows) && IsNonceRange(rows, worker, lastKnown, Some(nonce - 1), txs)
    ensures FillsGap(lastKnown, nonce, Wires(kind, txs))
      <==> lastKnown <= nonce && NothingMissing(rows, worker, lastKnown, nonce)
  {
    forall i | 0 <= i < |txs|
      ensures txs[i].key == Key(worker, txs[i].key.nonce) && lastKnown <= txs[i].key.nonce < nonce
      ensures txs[i].key in rows
    {
      assert InRange(txs[i], worker, lastKnown, Some(nonce - 1));
    }
    if lastKnown <= nonce && NothingMissing(rows, worker, lastKnown, nonce) {
      RangeIsConsecutive(rows, worker, lastKnown, Some(nonce - 1), nonce, txs);
    }
    if FillsGap(lastKnown, nonce, Wires(kind, txs)) {
      forall n: nat | lastKnown <= n < nonce
        ensures Key(worker, n) in rows
      {
        assert Wires(kind, txs)[n - lastKnown].nonce == n;
        assert txs[n - lastKnown].key == Key(worker, n);
      }
    }
  }

  /** The client accepts the server's whole gap exactly if, besides, every row of it is a relay call on its hub. */
  lemma ServerGapIsHarmless(
    client: Client, request: RelayRequest, kind: TransactionType, rows: Rows, lastKnown: nat, nonce: nat, txs: seq<StoredTx>)
    requires WellKeyed(rows) && IsNonceRange(rows, request.relayWorker, lastKnown, Some(nonce - 1), txs)
    ensures (forall i :: 0 <= i < |txs| ==> HarmlessPredecessor(client, request, Wires(kind, txs)[i]))
      <==> (forall i :: 0 <= i < |txs| ==>
              Some(txs[i].call.to) == client.hub && txs[i].call.data.selector == client.relayCall)
  {
    forall i | 0 <= i < |txs|
      ensures HarmlessPredecessor(client, request, Wires(kind, txs)[i]) <==>
        Some(txs[i].call.to) == client.hub && txs[i].call.data.selector == client.relayCall
    {
      assert InRange(txs[i], request.relayWorker, lastKnown, Some(nonce - 1));
    }
  }

  /**
   In any reachable state of the server in which a send has its nonce stored and answers its caller, the gap
   it is about to return passes the client's size and nonce checks exactly if the client's last known nonce is
   not above the transaction's own and no row between it and the chain's mined count has been pruned.
   */
  lemma ReachableServerFillsGap(
    c: Config, states: seq<State>, steps: seq<Step>, i: nat, p: nat, lastKnown: nat, txs: seq<StoredTx>)
    requires IsRun(c, states, steps) && i < |states| && states[i].server.Sender(p).Answering?
    requires var key := states[i].server.Sender(p).tx.key;
      IsNonceRange(states[i].rows, key.signer, lastKnown, Some(key.nonce - 1), txs)
    ensures var s, key := states[i], states[i].server.Sender(p).tx.key;
      var mined := s.ChainOf(key.signer).mined;
      FillsGap(lastKnown, key.nonce, Wires(c.kind, txs))
      <==> lastKnown <= key.nonce
           && NothingMissing(s.rows, key.signer, lastKnown, if mined < key.nonce then mined else key.nonce)
  {
    RunKeepsInv(c, states, steps, i);
    var s, key := states[i], states[i].server.Sender(p).tx.key;
    assert SenderInv(c, s, s.server.Sender(p)) && AccountInv(c, s, key.signer);
    ServerFillsGap(c.kind, s.rows, key.signer, lastKnown, key.nonce, txs);
    forall n: nat | s.ChainOf(key.signer).mined <= n < key.nonce
      ensures Key(key.signer, n) in s.rows
    {
    }
  }
}
