/**
 * Take-profit / stop-loss orders: the rows, the guarded status updates of the order
 * service, the queue message a row gives rise to, and the dual trigger.
 */
module OrderTable {
  import opened Common

  type Address = nat
  type TxHash = nat

  datatype OrderType = TakeProfit | StopLoss

  datatype Status = Pending | Executed | Cancelled | Expired

  /** `onchainOrderId` is `None` when the column is null or not a digit string. */
  datatype Order = Order(
    onchainOrderId: Option<nat>,
    userAddress: Address,
    poolId: nat,
    orderType: OrderType,
    zeroForOne: bool,
    amountIn: nat,
    minAmountOut: nat,
    triggerPriceX18: nat,
    twapWindow: nat,
    slippageBps: nat,
    deadline: nat,
    chainId: nat,
    createdAt: nat,
    status: Status,
    executionTxHash: Option<TxHash>)

  type Orders = map<nat, Order>

  datatype Message = Message(
    orderId: nat,
    onchainOrderId: nat,
    poolId: nat,
    orderType: OrderType,
    zeroForOne: bool,
    amountIn: nat,
    minAmountOut: nat,
    triggerPriceX18: nat,
    twapWindow: nat,
    slippageBps: nat,
    deadline: nat,
    userAddress: Address,
    chainId: nat)

  /** The message a keeper tick enqueues for a row; none without an on-chain id. */
  function MessageFor(id: nat, o: Order): Option<Message> {
    match o.onchainOrderId
    case None => None
    case Some(onchain) =>
      Some(Message(id, onchain, o.poolId, o.orderType, o.zeroForOne, o.amountIn, o.minAmountOut, o.triggerPriceX18,
                   o.twapWindow, o.slippageBps, o.deadline, o.userAddress, o.chainId))
  }

  /** Everything but status and transaction hash. */
  predicate SameTerms(a: Order, b: Order) {
    a.(status := b.status, executionTxHash := b.executionTxHash) == b
  }

  predicate IsPending(orders: Orders, id: nat, chainId: nat) {
    id in orders && orders[id].chainId == chainId && orders[id].status == Pending
  }

  function SetStatus(orders: Orders, id: nat, status: Status): Orders
    requires id in orders
  {
    orders[id := orders[id].(status := status)]
  }

  function MarkExecuted(orders: Orders, id: nat, chainId: nat, txHash: TxHash): Orders {
    if IsPending(orders, id, chainId)
    then orders[id := orders[id].(status := Executed, executionTxHash := Some(txHash))] else orders
  }

  function RecordSubmission(orders: Orders, id: nat, chainId: nat, txHash: TxHash): Orders {
    if IsPending(orders, id, chainId) then orders[id := orders[id].(executionTxHash := Some(txHash))] else orders
  }

  function MarkCancelled(orders: Orders, id: nat, user: Address, chainId: nat): Orders {
    if IsPending(orders, id, chainId) && orders[id].userAddress == user then SetStatus(orders, id, Cancelled) else orders
  }

  function MarkExpired(orders: Orders, id: nat, chainId: nat): Orders {
    if IsPending(orders, id, chainId) then SetStatus(orders, id, Expired) else orders
  }

  /** The queue handler's expiry write: it matches the row by id and chain, whatever its status. */
  function OverwriteExpired(orders: Orders, id: nat, chainId: nat): Orders {
    if id in orders && orders[id].chainId == chainId then SetStatus(orders, id, Expired) else orders
  }

  /** The keeper tick's bulk expiry at its own clock reading. */
  function ExpireOverdue(orders: Orders, chainId: nat, now: nat): Orders {
    map id | id in orders ::
      if orders[id].chainId == chainId && orders[id].status == Pending && orders[id].deadline <= now
      then orders[id].(status := Expired) else orders[id]
  }

  /** Spot and TWAP past the trigger, on the side the order waits for. */
  function TriggerMet(orderType: OrderType, zeroForOne: bool, trigger: nat, spot: nat, twap: nat): bool {
    if (orderType == TakeProfit) == zeroForOne
    then spot <= trigger && twap <= trigger
    else spot >= trigger && twap >= trigger
  }

  datatype ExecutionPolicy = ExecutionPolicy(expectedChainId: nat, maxAmountIn: Option<nat>)

  function CanExecuteTpSlOrder(status: Status, deadline: nat, chainId: nat, amountIn: nat, policy: ExecutionPolicy, now: nat): bool {
    && status == Pending
    && deadline > now
    && chainId == policy.expectedChainId
    && (policy.maxAmountIn.Some? ==> amountIn <= policy.maxAmountIn.value)
  }

  /** The gate's edges: the deadline must lie ahead, an amount at the cap passes, and no cap caps nothing. */
  lemma GateIff(status: Status, deadline: nat, chainId: nat, amountIn: nat, policy: ExecutionPolicy, now: nat)
    ensures CanExecuteTpSlOrder(status, deadline, chainId, amountIn, policy, now) <==>
              && status != Executed && status != Cancelled && status != Expired
              && now < deadline && policy.expectedChainId == chainId
              && forall cap: nat :: policy.maxAmountIn == Some(cap) ==> !(amountIn > cap)
  {}

  /** A message repeats every term of its row, and there is one exactly for a row with an on-chain id. */
  lemma MessageTerms(id: nat, o: Order)
    ensures MessageFor(id, o).None? <==> o.onchainOrderId.None?
    ensures var m := MessageFor(id, o);
            m.Some? ==>
              && m.value.orderId == id && Some(m.value.onchainOrderId) == o.onchainOrderId && m.value.poolId == o.poolId
              && m.value.orderType == o.orderType && m.value.zeroForOne == o.zeroForOne
              && m.value.amountIn == o.amountIn && m.value.minAmountOut == o.minAmountOut
              && m.value.triggerPriceX18 == o.triggerPriceX18 && m.value.twapWindow == o.twapWindow
              && m.value.slippageBps == o.slippageBps && m.value.deadline == o.deadline
              && m.value.userAddress == o.userAddress && m.value.chainId == o.chainId
  {}

  /** A keeper tick expires exactly the pending rows of its chain due by its clock, and only their status. */
  lemma ExpiredByTick(orders: Orders, chainId: nat, now: nat, id: nat)
    requires id in orders
    ensures var after := ExpireOverdue(orders, chainId, now);
            && after.Keys == orders.Keys
            && (after[id] == if orders[id].chainId == chainId && orders[id].status == Pending && orders[id].deadline <= now
                             then orders[id].(status := Expired) else orders[id])
  {}

  datatype OrderError = OrderNotFound | OrderCreateError

  /** The unique index: another row of the chain has the on-chain id; null ids never clash. */
  predicate Taken(orders: Orders, chainId: nat, onchain: Option<nat>) {
    onchain.Some? && exists id :: id in orders && orders[id].chainId == chainId && orders[id].onchainOrderId == onchain
  }

  /** The row an insert adds. */
  function NewRow(terms: Order, now: nat): Order {
    terms.(status := Pending, createdAt := now, executionTxHash := None)
  }

  /**
   * The order service over its table. Only a pending row of the right chain ever changes
   * status. `countsChanges`: whether the client's UPDATE result carries a change count; where
   * it does not, an update that matched nothing goes unnoticed.
   */
  class TpSlService {
    const countsChanges: bool
    var orders: Orders
    var nextId: nat

    ghost predicate Valid()
      reads this
    {
      forall id :: id in orders ==> id < nextId
    }

    constructor (countsChanges: bool)
      ensures Valid() && orders == map[] && this.countsChanges == countsChanges
    {
      this.countsChanges, orders, nextId := countsChanges, map[], 0;
    }

    /** Refused exactly when the chain's on-chain id already has a row. */
    method CreateOrder(terms: Order, now: nat) returns (r: Result<nat, OrderError>)
      requires Valid()
      modifies this
      ensures Valid()
      ensures r.Err? <==>
                && terms.onchainOrderId.Some?
                && (exists id :: id in old(orders) && old(orders)[id].chainId == terms.chainId
                                 && old(orders)[id].onchainOrderId == terms.onchainOrderId)
      ensures r.Err? ==> orders == old(orders)
      ensures r.Ok? ==>
                && r.value !in old(orders)
                && orders == old(orders)[r.value := terms.(status := Pending, createdAt := now, executionTxHash := None)]
    {
      if Taken(orders, terms.chainId, terms.onchainOrderId) {
        return Err(OrderCreateError);
      }
      r := Ok(nextId);
      orders := orders[nextId := NewRow(terms, now)];
      nextId := nextId + 1;
    }

    method CancelOrder(id: nat, user: Address, chainId: nat) returns (r: Result<(), OrderError>)
      requires Valid()
      modifies this`orders
      ensures Valid()
      ensures var mine := && id in old(orders) && old(orders)[id].chainId == chainId
                          && old(orders)[id].status == Pending && old(orders)[id].userAddress == user;
              && orders == (if mine then old(orders)[id := old(orders)[id].(status := Cancelled)] else old(orders))
              && (r.Err? <==> countsChanges && !mine)
    {
      var matched := IsPending(orders, id, chainId) && orders[id].userAddress == user;
      orders := MarkCancelled(orders, id, user, chainId);
      r := UpdateResult(matched);
    }

    method ExecuteOrder(id: nat, chainId: nat, txHash: TxHash) returns (r: Result<(), OrderError>)
      requires Valid()
      modifies this`orders
      ensures Valid()
      ensures var pending := id in old(orders) && old(orders)[id].chainId == chainId && old(orders)[id].status == Pending;
              && orders == (if pending
                            then old(orders)[id := old(orders)[id].(status := Executed, executionTxHash := Some(txHash))]
                            else old(orders))
              && (r.Err? <==> countsChanges && !pending)
    {
      var matched := IsPending(orders, id, chainId);
      orders := MarkExecuted(orders, id, chainId, txHash);
      r := UpdateResult(matched);
    }

    method ExpireOrder(id: nat, chainId: nat) returns (r: Result<(), OrderError>)
      requires Valid()
      modifies this`orders
      ensures Valid()
      ensures var pending := id in old(orders) && old(orders)[id].chainId == chainId && old(orders)[id].status == Pending;
              && orders == (if pending then old(orders)[id := old(orders)[id].(status := Expired)] else old(orders))
              && (r.Err? <==> countsChanges && !pending)
    {
      var matched := IsPending(orders, id, chainId);
      orders := MarkExpired(orders, id, chainId);
      r := UpdateResult(matched);
    }

    /** Not found is reported only when the result says that no row changed. */
    method UpdateResult(matched: bool) returns (r: Result<(), OrderError>)
      ensures r.Err? <==> countsChanges && !matched
    {
      var changes: Option<nat> := if countsChanges then Some(if matched then 1 else 0) else None;
      r := if changes == Some(0) then Err(OrderNotFound) else Ok(());
    }
  }
}
