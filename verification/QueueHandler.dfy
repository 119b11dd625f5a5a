/**
 * One delivery of a keeper queue message, and the batch loop around it. Clock readings,
 * cache and chain answers and the signer's outcome are inputs.
 */
module QueueHandler {
  import opened Common
  import opened OrderTable
  import KeeperSigner

  datatype KeeperConfig = KeeperConfig(expectedChainId: Option<nat>, tpslAddress: Option<Address>)

  datatype SignerOutcome =
    | SubmissionDisabled
    | NotSent(error: KeeperSigner.SendError)
    | Sent(txHash: TxHash, receipt: KeeperSigner.ReceiptAnswer)

  /** `now1` is read after the row, `now2` at the authorisation gate. */
  datatype Answers = Answers(
    now1: nat, now2: nat, spot: Option<nat>, cachedTwap: Option<nat>, chainTwap: Option<nat>, signer: SignerOutcome)

  /** The cached TWAP when it is valid, else the oracle's. */
  function Twap(cached: Option<nat>, chain: Option<nat>): Option<nat> {
    if cached.Some? then cached else chain
  }

  /** Whether the handler gets as far as submitting a transaction. */
  predicate Submits(cfg: KeeperConfig, orders: Orders, msg: Message, a: Answers) {
    var twap := Twap(a.cachedTwap, a.chainTwap);
    && IsPending(orders, msg.orderId, msg.chainId)
    && a.now1 <= msg.deadline
    && orders[msg.orderId].onchainOrderId.Some?
    && a.spot.Some? && twap.Some?
    && TriggerMet(msg.orderType, msg.zeroForOne, msg.triggerPriceX18, a.spot.value, twap.value)
    && cfg.expectedChainId.Some?
    && CanExecuteTpSlOrder(Pending, msg.deadline, msg.chainId, msg.amountIn,
                           ExecutionPolicy(cfg.expectedChainId.value, None), a.now2)
    && cfg.tpslAddress.Some?
  }

  /** The signer's answer for a submission, as the handler sees it. */
  function Confirmation(cfg: KeeperConfig, signer: SignerOutcome): Result<Option<bool>, KeeperSigner.SendError>
    requires cfg.tpslAddress.Some? && !signer.SubmissionDisabled?
  {
    match signer
    case NotSent(e) => Err(e)
    case Sent(txHash, receipt) => KeeperSigner.AwaitConfirmation(txHash, cfg.tpslAddress.value, receipt)
  }

  predicate ConfirmedOnChain(cfg: KeeperConfig, signer: SignerOutcome) {
    && cfg.tpslAddress.Some?
    && signer.Sent?
    && signer.receipt.Success?
    && KeeperSigner.ReceiptLog(cfg.tpslAddress.value, Some(KeeperSigner.ORDER_EXECUTED_TOPIC)) in signer.receipt.logs
  }

  predicate Thrown(cfg: KeeperConfig, orders: Orders, msg: Message, a: Answers) {
    && Submits(cfg, orders, msg, a)
    && !a.signer.SubmissionDisabled?
    && Confirmation(cfg, a.signer).Err?
    && KeeperSigner.IsTransient(Confirmation(cfg, a.signer).error)
  }

  /** The table after one uninterrupted delivery. */
  function Effect(cfg: KeeperConfig, orders: Orders, msg: Message, a: Answers): Orders {
    if IsPending(orders, msg.orderId, msg.chainId) && a.now1 > msg.deadline
    then SetStatus(orders, msg.orderId, Expired)
    else if !Submits(cfg, orders, msg, a) || !a.signer.Sent? || Confirmation(cfg, a.signer).Err? then orders
    else if ConfirmedOnChain(cfg, a.signer) then MarkExecuted(orders, msg.orderId, msg.chainId, a.signer.txHash)
    else RecordSubmission(orders, msg.orderId, msg.chainId, a.signer.txHash)
  }

  /**
   * When the handler submits, spelled out: the row is pending on the message's chain with an
   * on-chain id, the deadline has not passed at either reading, spot and TWAP (the cached one
   * if there is one) are both at or past the trigger on the order's side, the chain is the
   * keeper's and the contract is configured. Take-profit for token 0 and stop-loss for token 1
   * wait for the price to fall, the other two for it to rise.
   */
  lemma SubmitsIff(cfg: KeeperConfig, orders: Orders, msg: Message, a: Answers)
    ensures Submits(cfg, orders, msg, a) <==>
              && msg.orderId in orders && orders[msg.orderId].status == Pending && orders[msg.orderId].chainId == msg.chainId
              && orders[msg.orderId].onchainOrderId.Some?
              && a.now1 <= msg.deadline && a.now2 < msg.deadline
              && a.spot.Some? && (a.cachedTwap.Some? || a.chainTwap.Some?)
              && cfg.expectedChainId == Some(msg.chainId) && cfg.tpslAddress.Some?
              && var spot, trigger := a.spot.value, msg.triggerPriceX18;
                 var twap := if a.cachedTwap.Some? then a.cachedTwap.value else a.chainTwap.value;
                 && (msg.orderType == TakeProfit && msg.zeroForOne ==> spot <= trigger && twap <= trigger)
                 && (msg.orderType == TakeProfit && !msg.zeroForOne ==> spot >= trigger && twap >= trigger)
                 && (msg.orderType == StopLoss && msg.zeroForOne ==> spot >= trigger && twap >= trigger)
                 && (msg.orderType == StopLoss && !msg.zeroForOne ==> spot <= trigger && twap <= trigger)
  {}

  /** Receipt and log that confirm an execution: the contract's own `OrderExecuted` in a successful receipt. */
  lemma ConfirmedIff(cfg: KeeperConfig, signer: SignerOutcome)
    ensures ConfirmedOnChain(cfg, signer) <==>
              && cfg.tpslAddress.Some? && signer.Sent? && signer.receipt.Success?
              && exists log :: log in signer.receipt.logs && log.address == cfg.tpslAddress.value
                               && log.topic0 == Some(KeeperSigner.ORDER_EXECUTED_TOPIC)
  {}

  /**
   * One delivery changes a row's status only if it is the message's pending row, and then to
   * executed exactly when the dual trigger, the gate and the receipt all agree. The transaction
   * hash is recorded for every submission that neither failed nor reverted, confirmed or not.
   */
  lemma DeliveryOutcome(cfg: KeeperConfig, orders: Orders, msg: Message, a: Answers, id: nat)
    requires id in orders
    ensures var after := Effect(cfg, orders, msg, a);
            && id in after && SameTerms(orders[id], after[id])
            && (after[id].status != orders[id].status ==>
                  id == msg.orderId && orders[id].status == Pending && orders[id].chainId == msg.chainId)
            && ((orders[id].status == Pending && after[id].status == Executed) <==>
                && id == msg.orderId && orders[id].status == Pending && orders[id].chainId == msg.chainId
                && orders[id].onchainOrderId.Some? && a.now1 <= msg.deadline && a.now2 < msg.deadline
                && cfg.expectedChainId == Some(msg.chainId) && cfg.tpslAddress.Some?
                && a.spot.Some? && (a.cachedTwap.Some? || a.chainTwap.Some?)
                && (var spot, trigger := a.spot.value, msg.triggerPriceX18;
                    var twap := if a.cachedTwap.Some? then a.cachedTwap.value else a.chainTwap.value;
                    && (msg.orderType == TakeProfit && msg.zeroForOne ==> spot <= trigger && twap <= trigger)
                    && (msg.orderType == TakeProfit && !msg.zeroForOne ==> spot >= trigger && twap >= trigger)
                    && (msg.orderType == StopLoss && msg.zeroForOne ==> spot >= trigger && twap >= trigger)
                    && (msg.orderType == StopLoss && !msg.zeroForOne ==> spot <= trigger && twap <= trigger))
                && a.signer.Sent? && a.signer.receipt.Success?
                && KeeperSigner.ReceiptLog(cfg.tpslAddress.value, Some(KeeperSigner.ORDER_EXECUTED_TOPIC)) in a.signer.receipt.logs)
            && ((orders[id].status == Pending && after[id].status == Expired) <==>
                && id == msg.orderId && orders[id].status == Pending && orders[id].chainId == msg.chainId
                && a.now1 > msg.deadline)
            && after[id].executionTxHash ==
                 (if id == msg.orderId && Submits(cfg, orders, msg, a) && a.signer.Sent?
                     && !a.signer.receipt.WaitFailed? && !a.signer.receipt.Reverted?
                  then Some(a.signer.txHash) else orders[id].executionTxHash)
  {}

  /**
   * A delivery is retried exactly when it submitted and either the signer reports an RPC fault
   * or a relay fault marked retryable, or waiting for the receipt failed.
   */
  lemma ThrownIff(cfg: KeeperConfig, orders: Orders, msg: Message, a: Answers)
    ensures Thrown(cfg, orders, msg, a) <==>
              && Submits(cfg, orders, msg, a)
              && (|| a.signer == NotSent(KeeperSigner.KeeperRpcError)
                  || a.signer == NotSent(KeeperSigner.KeeperRelayError(true))
                  || (a.signer.Sent? && a.signer.receipt.WaitFailed?))
  {}

  /** A delivery that asks to be delivered again has written nothing. */
  lemma ThrownWritesNothing(cfg: KeeperConfig, orders: Orders, msg: Message, a: Answers)
    requires Thrown(cfg, orders, msg, a)
    ensures Effect(cfg, orders, msg, a) == orders
    ensures a.signer.NotSent? || a.signer.receipt.WaitFailed?
  {}

  /**
   * A queued body: an order message, one of another kind whose handler fails or not, one of no
   * known kind, or none at all. Only order messages touch the order table.
   */
  datatype Body = OrderBody(msg: Message) | OtherKind(fails: bool) | UnknownKind | NoBody

  /** Whether the message asks to be delivered again. */
  predicate Retries(cfg: KeeperConfig, orders: Orders, body: Body, a: Answers) {
    match body
    case OrderBody(msg) => Thrown(cfg, orders, msg, a)
    case OtherKind(fails) => fails
    case UnknownKind => false
    case NoBody => true
  }

  function BodyEffect(cfg: KeeperConfig, orders: Orders, body: Body, a: Answers): Orders {
    if body.OrderBody? then Effect(cfg, orders, body.msg, a) else orders
  }

  function BatchEffect(cfg: KeeperConfig, orders: Orders, batch: seq<Body>, answers: seq<Answers>): Orders
    requires |batch| == |answers|
  {
    if batch == [] then orders
    else
      var n := |batch| - 1;
      BodyEffect(cfg, BatchEffect(cfg, orders, batch[..n], answers[..n]), batch[n], answers[n])
  }

  /** Which messages of the batch are acked; the others are retried. */
  function BatchAcks(cfg: KeeperConfig, orders: Orders, batch: seq<Body>, answers: seq<Answers>): seq<bool>
    requires |batch| == |answers|
  {
    if batch == [] then []
    else
      var n := |batch| - 1;
      BatchAcks(cfg, orders, batch[..n], answers[..n])
      + [!Retries(cfg, BatchEffect(cfg, orders, batch[..n], answers[..n]), batch[n], answers[n])]
  }

  lemma OneMoreMessage(cfg: KeeperConfig, orders: Orders, batch: seq<Body>, answers: seq<Answers>, i: nat)
    requires i < |batch| == |answers|
    ensures var before := BatchEffect(cfg, orders, batch[..i], answers[..i]);
            && BatchEffect(cfg, orders, batch[..i + 1], answers[..i + 1]) == BodyEffect(cfg, before, batch[i], answers[i])
            && BatchAcks(cfg, orders, batch[..i + 1], answers[..i + 1])
               == BatchAcks(cfg, orders, batch[..i], answers[..i]) + [!Retries(cfg, before, batch[i], answers[i])]
  {
    assert batch[..i + 1][..i] == batch[..i] && answers[..i + 1][..i] == answers[..i];
  }

  /**
   * Each message is acked on its own outcome: one of another kind unless its handler failed,
   * one of no known kind always, a missing body never, an order message unless its delivery,
   * on the table the earlier messages left, is to be retried.
   */
  lemma {:induction false} AckedIff(cfg: KeeperConfig, orders: Orders, batch: seq<Body>, answers: seq<Answers>, i: nat)
    requires i < |batch| == |answers|
    ensures var acks := BatchAcks(cfg, orders, batch, answers);
            && |acks| == |batch|
            && match batch[i]
               case OtherKind(fails) => acks[i] == !fails
               case UnknownKind => acks[i]
               case NoBody => !acks[i]
               case OrderBody(msg) => acks[i] == !Thrown(cfg, BatchEffect(cfg, orders, batch[..i], answers[..i]), msg, answers[i])
  {
    var n := |batch| - 1;
    AcksLength(cfg, orders, batch, answers);
    AcksLength(cfg, orders, batch[..n], answers[..n]);
    if i < n {
      AckedIff(cfg, orders, batch[..n], answers[..n], i);
      assert batch[..n][..i] == batch[..i] && answers[..n][..i] == answers[..i];
    }
  }

  /** A batch in which everything is retried has changed no row: its messages can simply come again. */
  lemma {:induction false} RetriedBatchWritesNothing(cfg: KeeperConfig, orders: Orders, batch: seq<Body>, answers: seq<Answers>)
    requires |batch| == |answers|
    requires forall i :: 0 <= i < |batch| ==> i < |BatchAcks(cfg, orders, batch, answers)| && !BatchAcks(cfg, orders, batch, answers)[i]
    ensures BatchEffect(cfg, orders, batch, answers) == orders
  {
    if batch != [] {
      var n := |batch| - 1;
      var front, acks := BatchAcks(cfg, orders, batch[..n], answers[..n]), BatchAcks(cfg, orders, batch, answers);
      AcksLength(cfg, orders, batch[..n], answers[..n]);
      forall i | 0 <= i < n ensures !front[i] {
        assert front[i] == acks[i];
      }
      RetriedBatchWritesNothing(cfg, orders, batch[..n], answers[..n]);
      assert !acks[n];
      if batch[n].OrderBody? {
        ThrownWritesNothing(cfg, orders, batch[n].msg, answers[n]);
      }
    }
  }

  lemma {:induction false} AcksLength(cfg: KeeperConfig, orders: Orders, batch: seq<Body>, answers: seq<Answers>)
    requires |batch| == |answers|
    ensures |BatchAcks(cfg, orders, batch, answers)| == |batch|
  {
    if batch != [] {
      AcksLength(cfg, orders, batch[..|batch| - 1], answers[..|batch| - 1]);
    }
  }

  class Worker {
    const cfg: KeeperConfig
    const table: TpSlService

    constructor (cfg: KeeperConfig, table: TpSlService)
      ensures this.cfg == cfg && this.table == table
    {
      this.cfg, this.table := cfg, table;
    }

    /** Handles one message; `thrown` asks the queue to deliver it again. */
    method HandleTpSlEvaluate(msg: Message, a: Answers) returns (thrown: bool)
      modifies table`orders
      ensures table.orders == Effect(cfg, old(table.orders), msg, a)
      ensures thrown <==> Thrown(cfg, old(table.orders), msg, a)
    {
      if !IsPending(table.orders, msg.orderId, msg.chainId) {
        return false;
      }
      var onchain := table.orders[msg.orderId].onchainOrderId;
      if a.now1 > msg.deadline {
        table.orders := OverwriteExpired(table.orders, msg.orderId, msg.chainId);
        return false;
      }
      if onchain.None? || a.spot.None? {
        return false;
      }
      var twap := a.cachedTwap;
      if twap.None? {
        twap := a.chainTwap;
      }
      if twap.None? {
        return false;
      }
      var trigger, spot := msg.triggerPriceX18, a.spot.value;
      var isTriggered := false;
      if msg.orderType == TakeProfit {
        if msg.zeroForOne {
          isTriggered := spot <= trigger;
          isTriggered := isTriggered && twap.value <= trigger;
        } else {
          isTriggered := spot >= trigger;
          isTriggered := isTriggered && twap.value >= trigger;
        }
      } else {
        if msg.zeroForOne {
          isTriggered := spot >= trigger;
          isTriggered := isTriggered && twap.value >= trigger;
        } else {
          isTriggered := spot <= trigger;
          isTriggered := isTriggered && twap.value <= trigger;
        }
      }
      if !isTriggered || cfg.expectedChainId.None? {
        return false;
      }
      var policy := ExecutionPolicy(cfg.expectedChainId.value, None);
      if !CanExecuteTpSlOrder(Pending, msg.deadline, msg.chainId, msg.amountIn, policy, a.now2) {
        return false;
      }
      if cfg.tpslAddress.None? || a.signer.SubmissionDisabled? {
        return false;
      }
      var submission := Confirmation(cfg, a.signer);
      if submission.Err? {
        return KeeperSigner.IsTransient(submission.error);
      }
      if submission.value != Some(true) {
        table.orders := RecordSubmission(table.orders, msg.orderId, msg.chainId, a.signer.txHash);
        return false;
      }
      table.orders := MarkExecuted(table.orders, msg.orderId, msg.chainId, a.signer.txHash);
      thrown := false;
    }

    /** Every message of a batch is handled, in order, and acked or retried on its own outcome. */
    method ProcessQueueBatch(batch: seq<Body>, answers: seq<Answers>) returns (acked: seq<bool>)
      requires |batch| == |answers|
      modifies table`orders
      ensures table.orders == BatchEffect(cfg, old(table.orders), batch, answers)
      ensures acked == BatchAcks(cfg, old(table.orders), batch, answers)
    {
      acked := [];
      for i := 0 to |batch|
        invariant acked == BatchAcks(cfg, old(table.orders), batch[..i], answers[..i])
        invariant table.orders == BatchEffect(cfg, old(table.orders), batch[..i], answers[..i])
      {
        OneMoreMessage(cfg, old(table.orders), batch, answers, i);
        var thrown := false;
        match batch[i] {
          case OrderBody(msg) => thrown := HandleTpSlEvaluate(msg, answers[i]);
          case OtherKind(fails) => thrown := fails;
          case UnknownKind =>
          case NoBody => thrown := true;
        }
        acked := acked + [!thrown];
      }
      assert batch[..|batch|] == batch && answers[..|answers|] == answers;
    }
  }
}
