/**
 * Whole runs of the keeper: the order service, keeper ticks and queue deliveries interleave
 * at every point where the source awaits. The queue may deliver any sent message at any
 * time, any number of times. `marks` and `serviceExecuted` record who marked what executed.
 */
module OrderRuns {
  import opened Common
  import opened OrderTable
  import opened QueueHandler
  import KeeperSigner

  datatype Delivery =
    | Received(msg: Message)
    | ReadPending(msg: Message, onchain: Option<nat>)
    | Overdue(msg: Message)
    | InTime(msg: Message)
    | Breached(msg: Message, spot: nat, twap: nat)
    | Authorised(msg: Message, spot: nat, twap: nat, at: nat)
    | Answered(msg: Message, spot: nat, twap: nat, at: nat, txHash: TxHash, receipt: KeeperSigner.ReceiptAnswer)

  /** A keeper tick: its clock reading and the selected rows still to enqueue. */
  datatype Tick = Tick(now: nat, selected: seq<(nat, Order)>)

  /** Evidence kept when a delivery marks a row executed. */
  datatype Mark = Mark(msg: Message, spot: nat, twap: nat, at: nat, txHash: TxHash, receipt: KeeperSigner.ReceiptAnswer)

  datatype State = State(
    orders: Orders,
    nextId: nat,
    now: nat,
    queue: set<Message>,
    deliveries: map<nat, Delivery>,
    ticks: map<nat, Tick>,
    marks: seq<Mark>,
    serviceExecuted: set<nat>)

  datatype Action =
    | Wait(ms: nat)
    | Create(terms: Order)
    | Cancel(id: nat, user: Address, chainId: nat)
    | ServiceExecute(id: nat, chainId: nat, txHash: TxHash)
    | ServiceExpire(id: nat, chainId: nat)
    | BeginKeeperTick(tick: nat, ids: seq<nat>)
    | EnqueueNext(tick: nat, delivered: bool)
    | FinishTick(tick: nat)
    | Deliver(task: nat, msg: Message)
    | ReadRow(task: nat)
    | CheckDeadline(task: nat)
    | WriteExpired(task: nat)
    | ReadPrices(task: nat, spot: Option<nat>, cachedTwap: Option<nat>, chainTwap: Option<nat>)
    | Authorise(task: nat)
    | SubmitOrder(task: nat, outcome: SignerOutcome)
    | WriteOutcome(task: nat)
    | Abort(task: nat)

  const Initial: State := State(map[], 0, 0, {}, map[], map[], [], {})

  function Drop(s: State, t: nat): State { s.(deliveries := s.deliveries - {t}) }

  function Put(s: State, t: nat, d: Delivery): State { s.(deliveries := s.deliveries[t := d]) }

  /** The unique index refuses a second row for an on-chain id. */
  function CreateStep(s: State, terms: Order): State {
    if Taken(s.orders, terms.chainId, terms.onchainOrderId) then s
    else s.(orders := s.orders[s.nextId := NewRow(terms, s.now)], nextId := s.nextId + 1)
  }

  /** The keeper tick's SELECT: at most 50 pending rows of the keeper's chain, not yet due. */
  predicate Selectable(s: State, chainId: nat, ids: seq<nat>) {
    && 0 < |ids| <= 50
    && forall id :: id in ids ==> IsPending(s.orders, id, chainId) && s.orders[id].deadline > s.now
  }

  function Snapshot(orders: Orders, ids: seq<nat>): (rows: seq<(nat, Order)>)
    requires forall id :: id in ids ==> id in orders
    ensures |rows| == |ids|
    ensures forall k :: 0 <= k < |ids| ==> rows[k].0 == ids[k] && rows[k].1 == orders[ids[k]]
  {
    if ids == [] then [] else [(ids[0], orders[ids[0]])] + Snapshot(orders, ids[1..])
  }

  function BeginTickStep(s: State, chainId: nat, t: nat, ids: seq<nat>): State {
    if t in s.ticks || !Selectable(s, chainId, ids) then s
    else s.(ticks := s.ticks[t := Tick(s.now, Snapshot(s.orders, ids))])
  }

  /** Enqueues one selected row; a failed send is logged and skipped. */
  function EnqueueStep(s: State, t: nat, delivered: bool): State {
    if t !in s.ticks || s.ticks[t].selected == [] then s else
      var (id, order) := s.ticks[t].selected[0];
      var msg := MessageFor(id, order);
      s.(ticks := s.ticks[t := s.ticks[t].(selected := s.ticks[t].selected[1..])],
         queue := if msg.Some? && delivered then s.queue + {msg.value} else s.queue)
  }

  function FinishTickStep(s: State, chainId: nat, t: nat): State {
    if t !in s.ticks || s.ticks[t].selected != [] then s
    else s.(orders := ExpireOverdue(s.orders, chainId, s.ticks[t].now), ticks := s.ticks - {t})
  }

  function ReadRowStep(s: State, t: nat): State {
    if t !in s.deliveries || !s.deliveries[t].Received? then s else
      var msg := s.deliveries[t].msg;
      if IsPending(s.orders, msg.orderId, msg.chainId)
      then Put(s, t, ReadPending(msg, s.orders[msg.orderId].onchainOrderId))
      else Drop(s, t)
  }

  function CheckDeadlineStep(s: State, t: nat): State {
    if t !in s.deliveries || !s.deliveries[t].ReadPending? then s else
      var d := s.deliveries[t];
      if s.now > d.msg.deadline then Put(s, t, Overdue(d.msg))
      else if d.onchain.None? then Drop(s, t)
      else Put(s, t, InTime(d.msg))
  }

  function WriteExpiredStep(s: State, t: nat): State {
    if t !in s.deliveries || !s.deliveries[t].Overdue? then s else
      var msg := s.deliveries[t].msg;
      Drop(s, t).(orders := OverwriteExpired(s.orders, msg.orderId, msg.chainId))
  }

  function ReadPricesStep(s: State, t: nat, spot: Option<nat>, twap: Option<nat>): State {
    if t !in s.deliveries || !s.deliveries[t].InTime? then s else
      var msg := s.deliveries[t].msg;
      if spot.Some? && twap.Some? && TriggerMet(msg.orderType, msg.zeroForOne, msg.triggerPriceX18, spot.value, twap.value)
      then Put(s, t, Breached(msg, spot.value, twap.value))
      else Drop(s, t)
  }

  /** The gate reuses the status read earlier, which was pending. */
  function AuthoriseStep(cfg: KeeperConfig, s: State, t: nat): State {
    if t !in s.deliveries || !s.deliveries[t].Breached? then s else
      var d := s.deliveries[t];
      if cfg.expectedChainId.Some? && cfg.tpslAddress.Some?
         && CanExecuteTpSlOrder(Pending, d.msg.deadline, d.msg.chainId, d.msg.amountIn,
                                ExecutionPolicy(cfg.expectedChainId.value, None), s.now)
      then Put(s, t, Authorised(d.msg, d.spot, d.twap, s.now))
      else Drop(s, t)
  }

  /** Errors end the delivery; a transient one is simply delivered again later. */
  function SubmitStep(cfg: KeeperConfig, s: State, t: nat, outcome: SignerOutcome): State {
    if t !in s.deliveries || !s.deliveries[t].Authorised? || cfg.tpslAddress.None? then s else
      var d := s.deliveries[t];
      if !outcome.Sent? || Confirmation(cfg, outcome).Err? then Drop(s, t)
      else Put(s, t, Answered(d.msg, d.spot, d.twap, d.at, outcome.txHash, outcome.receipt))
  }

  function WriteOutcomeStep(cfg: KeeperConfig, s: State, t: nat): State {
    if t !in s.deliveries || !s.deliveries[t].Answered? then s else
      var d := s.deliveries[t];
      var id, chainId := d.msg.orderId, d.msg.chainId;
      if !ConfirmedOnChain(cfg, Sent(d.txHash, d.receipt))
      then Drop(s, t).(orders := RecordSubmission(s.orders, id, chainId, d.txHash))
      else Drop(s, t).(orders := MarkExecuted(s.orders, id, chainId, d.txHash),
                       marks := if IsPending(s.orders, id, chainId)
                                then s.marks + [Mark(d.msg, d.spot, d.twap, d.at, d.txHash, d.receipt)] else s.marks)
  }

  /** The worker and the keeper tick run on one chain, `chainId`. */
  function Step(cfg: KeeperConfig, chainId: nat, s: State, a: Action): State {
    match a
    case Wait(ms) => s.(now := s.now + ms)
    case Create(terms) => CreateStep(s, terms)
    case Cancel(id, user, c) => s.(orders := MarkCancelled(s.orders, id, user, c))
    case ServiceExecute(id, c, h) =>
      s.(orders := MarkExecuted(s.orders, id, c, h),
         serviceExecuted := if IsPending(s.orders, id, c) then s.serviceExecuted + {id} else s.serviceExecuted)
    case ServiceExpire(id, c) => s.(orders := MarkExpired(s.orders, id, c))
    case BeginKeeperTick(t, ids) => BeginTickStep(s, chainId, t, ids)
    case EnqueueNext(t, delivered) => EnqueueStep(s, t, delivered)
    case FinishTick(t) => FinishTickStep(s, chainId, t)
    case Deliver(t, msg) => if t in s.deliveries || msg !in s.queue then s else Put(s, t, Received(msg))
    case ReadRow(t) => ReadRowStep(s, t)
    case CheckDeadline(t) => CheckDeadlineStep(s, t)
    case WriteExpired(t) => WriteExpiredStep(s, t)
    case ReadPrices(t, spot, cached, chain) => ReadPricesStep(s, t, spot, Twap(cached, chain))
    case Authorise(t) => AuthoriseStep(cfg, s, t)
    case SubmitOrder(t, outcome) => SubmitStep(cfg, s, t, outcome)
    case WriteOutcome(t) => WriteOutcomeStep(cfg, s, t)
    case Abort(t) => Drop(s, t)
  }

  function Run(cfg: KeeperConfig, chainId: nat, actions: seq<Action>): State {
    if actions == [] then Initial
    else Step(cfg, chainId, Run(cfg, chainId, actions[..|actions| - 1]), actions[|actions| - 1])
  }

  // ─── Messages speak for their rows ────────────────────────────────────────

  ghost predicate Agrees(orders: Orders, msg: Message) {
    msg.orderId in orders && MessageFor(msg.orderId, orders[msg.orderId]) == Some(msg)
  }

  /** Rows are only added, and keep their terms. */
  ghost predicate Extends(before: Orders, after: Orders) {
    forall id :: id in before ==> id in after && SameTerms(before[id], after[id])
  }

  lemma ExtendsKeepsAgreement(before: Orders, after: Orders, msg: Message)
    requires Extends(before, after) && Agrees(before, msg)
    ensures Agrees(after, msg)
  {
    assert SameTerms(before[msg.orderId], after[msg.orderId]);
  }

  lemma FinishTickExtends(s: State, chainId: nat, t: nat)
    requires FreshIds(s)
    ensures Extends(s.orders, FinishTickStep(s, chainId, t).orders) && FreshIds(FinishTickStep(s, chainId, t))
  {}

  lemma WriteExpiredExtends(s: State, t: nat)
    requires FreshIds(s)
    ensures Extends(s.orders, WriteExpiredStep(s, t).orders) && FreshIds(WriteExpiredStep(s, t))
  {}

  lemma CreateExtends(s: State, terms: Order)
    requires FreshIds(s)
    ensures Extends(s.orders, CreateStep(s, terms).orders) && FreshIds(CreateStep(s, terms))
  {}

  lemma GuardedWritesExtend(orders: Orders, id: nat, user: Address, chainId: nat, txHash: TxHash)
    ensures Extends(orders, MarkCancelled(orders, id, user, chainId)) && MarkCancelled(orders, id, user, chainId).Keys == orders.Keys
    ensures Extends(orders, MarkExecuted(orders, id, chainId, txHash)) && MarkExecuted(orders, id, chainId, txHash).Keys == orders.Keys
    ensures Extends(orders, MarkExpired(orders, id, chainId)) && MarkExpired(orders, id, chainId).Keys == orders.Keys
  {}

  lemma WriteOutcomeExtends(cfg: KeeperConfig, s: State, t: nat)
    requires FreshIds(s)
    ensures Extends(s.orders, WriteOutcomeStep(cfg, s, t).orders) && FreshIds(WriteOutcomeStep(cfg, s, t))
  {}

  /** The steps that write to the order table. */
  predicate Writes(a: Action) {
    a.Create? || a.Cancel? || a.ServiceExecute? || a.ServiceExpire? || a.FinishTick? || a.WriteExpired? || a.WriteOutcome?
  }

  lemma QuietStep(cfg: KeeperConfig, chainId: nat, s: State, a: Action)
    requires !Writes(a)
    ensures Step(cfg, chainId, s, a).orders == s.orders && Step(cfg, chainId, s, a).nextId == s.nextId
  {}

  lemma StepExtends(cfg: KeeperConfig, chainId: nat, s: State, a: Action)
    requires FreshIds(s)
    ensures Extends(s.orders, Step(cfg, chainId, s, a).orders) && FreshIds(Step(cfg, chainId, s, a))
  {
    match a {
      case FinishTick(t) => FinishTickExtends(s, chainId, t);
      case WriteOutcome(t) => WriteOutcomeExtends(cfg, s, t);
      case WriteExpired(t) => WriteExpiredExtends(s, t);
      case Create(terms) => CreateExtends(s, terms);
      case Cancel(id, user, c) => GuardedWritesExtend(s.orders, id, user, c, 0);
      case ServiceExecute(id, c, h) => GuardedWritesExtend(s.orders, id, 0, c, h);
      case ServiceExpire(id, c) => GuardedWritesExtend(s.orders, id, 0, c, 0);
      case _ => QuietStep(cfg, chainId, s, a);
    }
  }

  ghost predicate FreshIds(s: State) {
    forall id :: id in s.orders ==> id < s.nextId
  }

  /** Trigger, gate and chain hold for a message's values. */
  ghost predicate GateHolds(cfg: KeeperConfig, msg: Message, spot: nat, twap: nat, at: nat) {
    && TriggerMet(msg.orderType, msg.zeroForOne, msg.triggerPriceX18, spot, twap)
    && at < msg.deadline
    && cfg.expectedChainId == Some(msg.chainId)
  }

  ghost predicate DeliveryOk(cfg: KeeperConfig, s: State, d: Delivery) {
    && Agrees(s.orders, d.msg)
    && (d.Overdue? ==> s.now > d.msg.deadline)
    && (d.Breached? ==> TriggerMet(d.msg.orderType, d.msg.zeroForOne, d.msg.triggerPriceX18, d.spot, d.twap))
    && (d.Authorised? ==> GateHolds(cfg, d.msg, d.spot, d.twap, d.at) && d.at <= s.now)
    && (d.Answered? ==> GateHolds(cfg, d.msg, d.spot, d.twap, d.at) && d.at <= s.now)
  }

  ghost predicate TickOk(s: State, tick: Tick) {
    && tick.now <= s.now
    && forall k :: 0 <= k < |tick.selected| ==>
         tick.selected[k].0 in s.orders && SameTerms(tick.selected[k].1, s.orders[tick.selected[k].0])
  }

  ghost predicate MarkOk(cfg: KeeperConfig, orders: Orders, m: Mark) {
    && Agrees(orders, m.msg)
    && GateHolds(cfg, m.msg, m.spot, m.twap, m.at)
    && ConfirmedOnChain(cfg, Sent(m.txHash, m.receipt))
  }

  ghost predicate Inv(cfg: KeeperConfig, s: State) {
    && FreshIds(s)
    && (forall msg :: msg in s.queue ==> Agrees(s.orders, msg))
    && (forall t :: t in s.deliveries ==> DeliveryOk(cfg, s, s.deliveries[t]))
    && (forall t :: t in s.ticks ==> TickOk(s, s.ticks[t]))
    && (forall m :: m in s.marks ==> MarkOk(cfg, s.orders, m))
  }

  /** Extending the rows or the clock keeps every recorded fact. */
  lemma Carry(cfg: KeeperConfig, s: State, s': State)
    requires Inv(cfg, s) && FreshIds(s') && Extends(s.orders, s'.orders) && s.now <= s'.now
    requires s'.queue == s.queue && s'.deliveries == s.deliveries && s'.ticks == s.ticks && s'.marks == s.marks
    ensures Inv(cfg, s')
  {
    forall msg | Agrees(s.orders, msg) ensures Agrees(s'.orders, msg) {
      ExtendsKeepsAgreement(s.orders, s'.orders, msg);
    }
    forall t | t in s.ticks ensures TickOk(s', s'.ticks[t]) {
      assert TickOk(s, s.ticks[t]);
    }
    forall t | t in s.deliveries ensures DeliveryOk(cfg, s', s'.deliveries[t]) {
      assert DeliveryOk(cfg, s, s.deliveries[t]);
    }
  }

  lemma ReplaceDelivery(cfg: KeeperConfig, s: State, t: nat, d: Delivery)
    requires Inv(cfg, s) && DeliveryOk(cfg, s, d)
    ensures Inv(cfg, Put(s, t, d))
  {
    forall u | u in Put(s, t, d).deliveries ensures DeliveryOk(cfg, Put(s, t, d), Put(s, t, d).deliveries[u]) {
      if u != t { assert DeliveryOk(cfg, s, s.deliveries[u]); }
    }
    forall u | u in s.ticks ensures TickOk(Put(s, t, d), s.ticks[u]) {
      assert TickOk(s, s.ticks[u]);
    }
  }

  lemma DropDelivery(cfg: KeeperConfig, s: State, t: nat)
    requires Inv(cfg, s)
    ensures Inv(cfg, Drop(s, t))
  {
    forall u | u in Drop(s, t).deliveries ensures DeliveryOk(cfg, Drop(s, t), Drop(s, t).deliveries[u]) {
      assert DeliveryOk(cfg, s, s.deliveries[u]);
    }
    forall u | u in s.ticks ensures TickOk(Drop(s, t), s.ticks[u]) {
      assert TickOk(s, s.ticks[u]);
    }
  }

  lemma BeginTickOk(cfg: KeeperConfig, chainId: nat, s: State, t: nat, ids: seq<nat>)
    requires Inv(cfg, s)
    ensures Inv(cfg, BeginTickStep(s, chainId, t, ids))
  {
    var s' := BeginTickStep(s, chainId, t, ids);
    forall u | u in s'.ticks ensures TickOk(s', s'.ticks[u]) {
      if u in s.ticks { assert TickOk(s, s.ticks[u]); }
    }
    forall u | u in s'.deliveries ensures DeliveryOk(cfg, s', s'.deliveries[u]) {
      assert DeliveryOk(cfg, s, s.deliveries[u]);
    }
  }

  lemma EnqueueOk(cfg: KeeperConfig, s: State, t: nat, delivered: bool)
    requires Inv(cfg, s)
    ensures Inv(cfg, EnqueueStep(s, t, delivered))
  {
    var s' := EnqueueStep(s, t, delivered);
    forall u | u in s'.ticks ensures TickOk(s', s'.ticks[u]) {
      assert TickOk(s, s.ticks[u]);
    }
    forall u | u in s'.deliveries ensures DeliveryOk(cfg, s', s'.deliveries[u]) {
      assert DeliveryOk(cfg, s, s.deliveries[u]);
    }
    if t in s.ticks && s.ticks[t].selected != [] {
      var (id, order) := s.ticks[t].selected[0];
      assert TickOk(s, s.ticks[t]);
      assert MessageFor(id, order) == MessageFor(id, s.orders[id]);
    }
  }

  lemma FinishTickOk(cfg: KeeperConfig, chainId: nat, s: State, t: nat)
    requires Inv(cfg, s)
    ensures Inv(cfg, FinishTickStep(s, chainId, t))
  {
    if t in s.ticks && s.ticks[t].selected == [] {
      var s' := s.(orders := ExpireOverdue(s.orders, chainId, s.ticks[t].now));
      Carry(cfg, s, s');
      forall u | u in s.ticks && u != t ensures TickOk(s'.(ticks := s.ticks - {t}), s.ticks[u]) {
        assert TickOk(s', s'.ticks[u]);
      }
      forall u | u in s'.deliveries ensures DeliveryOk(cfg, s'.(ticks := s.ticks - {t}), s'.deliveries[u]) {
        assert DeliveryOk(cfg, s', s'.deliveries[u]);
      }
    }
  }

  lemma {:induction false} WriteOutcomeOk(cfg: KeeperConfig, s: State, t: nat)
    requires Inv(cfg, s)
    ensures Inv(cfg, WriteOutcomeStep(cfg, s, t))
  {
    if t in s.deliveries && s.deliveries[t].Answered? {
      var d := s.deliveries[t];
      assert DeliveryOk(cfg, s, d);
      var s' := WriteOutcomeStep(cfg, s, t);
      var middle := s.(orders := s'.orders);
      WriteOutcomeExtends(cfg, s, t);
      Carry(cfg, s, middle);
      assert DeliveryOk(cfg, middle, d);
      DropDelivery(cfg, middle, t);
      AddMarks(cfg, Drop(middle, t), s');
    }
  }

  lemma AddMarks(cfg: KeeperConfig, s: State, s': State)
    requires Inv(cfg, s) && s' == s.(marks := s'.marks)
    requires forall m :: m in s'.marks ==> m in s.marks || MarkOk(cfg, s.orders, m)
    ensures Inv(cfg, s')
  {
    forall u | u in s.deliveries ensures DeliveryOk(cfg, s', s.deliveries[u]) {
      assert DeliveryOk(cfg, s, s.deliveries[u]);
    }
    forall u | u in s.ticks ensures TickOk(s', s.ticks[u]) {
      assert TickOk(s, s.ticks[u]);
    }
  }

  lemma DeliveryStepsOk(cfg: KeeperConfig, chainId: nat, s: State, a: Action)
    requires Inv(cfg, s)
    requires a.ReadRow? || a.CheckDeadline? || a.ReadPrices? || a.Authorise? || a.SubmitOrder?
    ensures Inv(cfg, Step(cfg, chainId, s, a))
  {
    var s' := Step(cfg, chainId, s, a);
    var t := a.task;
    if s' != s {
      assert DeliveryOk(cfg, s, s.deliveries[t]);
      if t in s'.deliveries {
        ReplaceDelivery(cfg, s, t, s'.deliveries[t]);
      } else {
        DropDelivery(cfg, s, t);
      }
    }
  }

  lemma StepKeepsInv(cfg: KeeperConfig, chainId: nat, s: State, a: Action)
    requires Inv(cfg, s)
    ensures Inv(cfg, Step(cfg, chainId, s, a))
  {
    StepExtends(cfg, chainId, s, a);
    var s' := Step(cfg, chainId, s, a);
    match a {
      case BeginKeeperTick(t, ids) => BeginTickOk(cfg, chainId, s, t, ids);
      case EnqueueNext(t, delivered) => EnqueueOk(cfg, s, t, delivered);
      case FinishTick(t) => FinishTickOk(cfg, chainId, s, t);
      case Deliver(t, msg) => if s' != s { ReplaceDelivery(cfg, s, t, Received(msg)); }
      case WriteExpired(t) =>
        if s' != s {
          var middle := s.(orders := s'.orders);
          Carry(cfg, s, middle);
          DropDelivery(cfg, middle, t);
        }
      case WriteOutcome(t) => WriteOutcomeOk(cfg, s, t);
      case Abort(t) => DropDelivery(cfg, s, t);
      case Wait(_) => Carry(cfg, s, s');
      case Create(_) => Carry(cfg, s, s');
      case Cancel(_, _, _) => Carry(cfg, s, s');
      case ServiceExecute(_, _, _) => Carry(cfg, s, s');
      case ServiceExpire(_, _) => Carry(cfg, s, s');
      case _ => DeliveryStepsOk(cfg, chainId, s, a);
    }
  }

  lemma {:induction false} RunKeepsInv(cfg: KeeperConfig, chainId: nat, actions: seq<Action>)
    ensures Inv(cfg, Run(cfg, chainId, actions))
  {
    if actions != [] {
      RunKeepsInv(cfg, chainId, actions[..|actions| - 1]);
      StepKeepsInv(cfg, chainId, Run(cfg, chainId, actions[..|actions| - 1]), actions[|actions| - 1]);
    }
  }

  /** Queued messages carry their row's terms for as long as they exist. */
  lemma MessagesAgree(cfg: KeeperConfig, chainId: nat, actions: seq<Action>)
    ensures var s := Run(cfg, chainId, actions);
            forall msg :: msg in s.queue ==>
              && msg.orderId in s.orders
              && var o := s.orders[msg.orderId];
                 && o.onchainOrderId == Some(msg.onchainOrderId) && o.poolId == msg.poolId
                 && o.orderType == msg.orderType && o.zeroForOne == msg.zeroForOne
                 && o.amountIn == msg.amountIn && o.minAmountOut == msg.minAmountOut
                 && o.triggerPriceX18 == msg.triggerPriceX18 && o.twapWindow == msg.twapWindow
                 && o.slippageBps == msg.slippageBps && o.deadline == msg.deadline
                 && o.userAddress == msg.userAddress && o.chainId == msg.chainId
  {
    RunKeepsInv(cfg, chainId, actions);
    forall msg | msg in Run(cfg, chainId, actions).queue ensures Agrees(Run(cfg, chainId, actions).orders, msg) {
      MessageTerms(msg.orderId, Run(cfg, chainId, actions).orders[msg.orderId]);
    }
  }

  // ─── Why a row is executed ────────────────────────────────────────────────

  /**
   * The keeper's reasons, in terms of the row itself: a successful receipt with the contract's
   * execution log, both prices on the side of the trigger the order waits for, the deadline
   * ahead at authorisation, and the keeper's own chain.
   */
  ghost predicate Justified(cfg: KeeperConfig, o: Order, m: Mark) {
    && cfg.tpslAddress.Some? && m.receipt.Success?
    && KeeperSigner.ReceiptLog(cfg.tpslAddress.value, Some(KeeperSigner.ORDER_EXECUTED_TOPIC)) in m.receipt.logs
    && (o.orderType == TakeProfit && o.zeroForOne ==> m.spot <= o.triggerPriceX18 && m.twap <= o.triggerPriceX18)
    && (o.orderType == TakeProfit && !o.zeroForOne ==> m.spot >= o.triggerPriceX18 && m.twap >= o.triggerPriceX18)
    && (o.orderType == StopLoss && o.zeroForOne ==> m.spot >= o.triggerPriceX18 && m.twap >= o.triggerPriceX18)
    && (o.orderType == StopLoss && !o.zeroForOne ==> m.spot <= o.triggerPriceX18 && m.twap <= o.triggerPriceX18)
    && m.at < o.deadline
    && cfg.expectedChainId == Some(o.chainId)
  }

  ghost predicate ExecutionsExplained(s: State) {
    forall id :: id in s.orders && s.orders[id].status == Executed ==>
      id in s.serviceExecuted ||
      (exists m :: m in s.marks && m.msg.orderId == id && Some(m.txHash) == s.orders[id].executionTxHash)
  }

  /** An executed row keeps its transaction hash while it stays executed. */
  lemma ExecutedRowIsFrozen(cfg: KeeperConfig, chainId: nat, s: State, a: Action, id: nat)
    requires FreshIds(s) && id in s.orders && s.orders[id].status == Executed
    ensures var s' := Step(cfg, chainId, s, a);
            id in s'.orders && s'.orders[id].executionTxHash == s.orders[id].executionTxHash
  {}

  lemma HistoryGrows(cfg: KeeperConfig, chainId: nat, s: State, a: Action)
    ensures var s' := Step(cfg, chainId, s, a);
            s.serviceExecuted <= s'.serviceExecuted && forall m :: m in s.marks ==> m in s'.marks
  {}

  lemma NewExecutionIsRecorded(cfg: KeeperConfig, chainId: nat, s: State, a: Action, id: nat)
    requires FreshIds(s)
    requires var s' := Step(cfg, chainId, s, a);
             id in s'.orders && s'.orders[id].status == Executed && !(id in s.orders && s.orders[id].status == Executed)
    ensures var s' := Step(cfg, chainId, s, a);
            id in s'.serviceExecuted ||
            (a.WriteOutcome? && s'.marks != [] &&
             var m := s'.marks[|s'.marks| - 1]; m.msg.orderId == id && Some(m.txHash) == s'.orders[id].executionTxHash)
  {}

  lemma StepExplains(cfg: KeeperConfig, chainId: nat, s: State, a: Action)
    requires FreshIds(s) && ExecutionsExplained(s)
    ensures ExecutionsExplained(Step(cfg, chainId, s, a))
  {
    var s' := Step(cfg, chainId, s, a);
    HistoryGrows(cfg, chainId, s, a);
    forall id | id in s'.orders && s'.orders[id].status == Executed && id !in s'.serviceExecuted
      ensures exists m :: m in s'.marks && m.msg.orderId == id && Some(m.txHash) == s'.orders[id].executionTxHash
    {
      if id in s.orders && s.orders[id].status == Executed {
        ExecutedRowIsFrozen(cfg, chainId, s, a, id);
        var m :| m in s.marks && m.msg.orderId == id && Some(m.txHash) == s.orders[id].executionTxHash;
        assert m in s'.marks;
      } else {
        NewExecutionIsRecorded(cfg, chainId, s, a, id);
        assert s'.marks[|s'.marks| - 1] in s'.marks;
      }
    }
  }

  lemma {:induction false} RunExplains(cfg: KeeperConfig, chainId: nat, actions: seq<Action>)
    ensures ExecutionsExplained(Run(cfg, chainId, actions))
  {
    if actions != [] {
      var s := Run(cfg, chainId, actions[..|actions| - 1]);
      RunExplains(cfg, chainId, actions[..|actions| - 1]);
      RunKeepsInv(cfg, chainId, actions[..|actions| - 1]);
      StepExplains(cfg, chainId, s, actions[|actions| - 1]);
    }
  }

  /**
   * In every run, with messages duplicated and reordered at will, a row is executed only if
   * the order service said so, or a confirmed receipt of the recorded transaction exists and,
   * at authorisation, both prices were past the row's trigger, its deadline lay ahead and its
   * chain was the keeper's.
   */
  lemma ExecutedOnlyWithCause(cfg: KeeperConfig, chainId: nat, actions: seq<Action>, id: nat)
    requires var s := Run(cfg, chainId, actions); id in s.orders && s.orders[id].status == Executed
    ensures var s := Run(cfg, chainId, actions);
            id in s.serviceExecuted ||
            (exists m :: m in s.marks && m.msg.orderId == id && Some(m.txHash) == s.orders[id].executionTxHash
                         && Justified(cfg, s.orders[id], m))
  {
    var s := Run(cfg, chainId, actions);
    RunExplains(cfg, chainId, actions);
    RunKeepsInv(cfg, chainId, actions);
    if id !in s.serviceExecuted {
      var m :| m in s.marks && m.msg.orderId == id && Some(m.txHash) == s.orders[id].executionTxHash;
      assert MarkOk(cfg, s.orders, m);
      assert Justified(cfg, s.orders[id], m);
    }
  }

  // ─── The order service's steps are its methods ────────────────────────────

  /** The row a guarded update matches: pending, on that chain. */
  ghost predicate PendingRow(orders: Orders, id: nat, c: nat) {
    id in orders && orders[id].chainId == c && orders[id].status == Pending
  }

  /** Cancelling, executing and expiring change the one pending row they name, as the methods promise. */
  lemma ServiceUpdates(cfg: KeeperConfig, chainId: nat, s: State, id: nat, user: Address, c: nat, h: TxHash)
    ensures Step(cfg, chainId, s, Cancel(id, user, c)).orders
         == if PendingRow(s.orders, id, c) && s.orders[id].userAddress == user
            then s.orders[id := s.orders[id].(status := Cancelled)] else s.orders
    ensures Step(cfg, chainId, s, ServiceExecute(id, c, h)).orders
         == if PendingRow(s.orders, id, c)
            then s.orders[id := s.orders[id].(status := Executed, executionTxHash := Some(h))] else s.orders
    ensures Step(cfg, chainId, s, ServiceExecute(id, c, h)).serviceExecuted
         == if PendingRow(s.orders, id, c) then s.serviceExecuted + {id} else s.serviceExecuted
    ensures Step(cfg, chainId, s, ServiceExpire(id, c)).orders
         == if PendingRow(s.orders, id, c) then s.orders[id := s.orders[id].(status := Expired)] else s.orders
  {}

  /** Creating adds one pending row under a fresh id, or is refused for a taken on-chain id. */
  lemma ServiceCreates(cfg: KeeperConfig, chainId: nat, s: State, terms: Order)
    ensures var s' := Step(cfg, chainId, s, Create(terms));
            if terms.onchainOrderId.Some? &&
               exists id :: id in s.orders && s.orders[id].chainId == terms.chainId
                            && s.orders[id].onchainOrderId == terms.onchainOrderId
            then s' == s
            else && s'.nextId == s.nextId + 1
                 && s'.orders == s.orders[s.nextId := terms.(status := Pending, createdAt := s.now, executionTxHash := None)]
  {}

  // ─── What a keeper tick selects, sends and expires ────────────────────────

  /** A tick takes at most fifty rows, each pending on the keeper's chain with its deadline ahead. */
  lemma TickSelects(cfg: KeeperConfig, chainId: nat, s: State, t: nat, ids: seq<nat>)
    requires t !in s.ticks && t in Step(cfg, chainId, s, BeginKeeperTick(t, ids)).ticks
    ensures var tick := Step(cfg, chainId, s, BeginKeeperTick(t, ids)).ticks[t];
            && tick.now == s.now && 0 < |tick.selected| <= 50
            && forall k :: 0 <= k < |tick.selected| ==>
                 var (id, row) := tick.selected[k];
                 && id in s.orders && row == s.orders[id]
                 && row.status == Pending && row.chainId == chainId && row.deadline > s.now
  {}

  /** It may select any such rows. */
  lemma TickMaySelect(cfg: KeeperConfig, chainId: nat, s: State, t: nat, ids: seq<nat>)
    requires t !in s.ticks && 0 < |ids| <= 50
    requires forall id :: id in ids ==>
               id in s.orders && s.orders[id].status == Pending && s.orders[id].chainId == chainId && s.orders[id].deadline > s.now
    ensures t in Step(cfg, chainId, s, BeginKeeperTick(t, ids)).ticks
  {}

  /** A selected row's message is queued exactly when it has an on-chain id and the send succeeds. */
  lemma TickSends(cfg: KeeperConfig, chainId: nat, s: State, t: nat, delivered: bool)
    requires t in s.ticks && s.ticks[t].selected != []
    ensures var s', (id, row) := Step(cfg, chainId, s, EnqueueNext(t, delivered)), s.ticks[t].selected[0];
            && t in s'.ticks && s'.ticks[t].selected == s.ticks[t].selected[1..]
            && (if delivered && row.onchainOrderId.Some?
                then exists msg :: s'.queue == s.queue + {msg} && msg.orderId == id && Some(msg.onchainOrderId) == row.onchainOrderId
                else s'.queue == s.queue)
  {
    var (id, row) := s.ticks[t].selected[0];
    MessageTerms(id, row);
    if delivered && row.onchainOrderId.Some? {
      assert Step(cfg, chainId, s, EnqueueNext(t, delivered)).queue == s.queue + {MessageFor(id, row).value};
    }
  }

  /**
   * The evidence of a delivery is what it read: the prices it was given, the clock at the gate
   * and the signer's transaction and receipt.
   */
  lemma EvidenceCarried(cfg: KeeperConfig, chainId: nat, s: State, a: Action, t: nat)
    requires t in s.deliveries && t in Step(cfg, chainId, s, a).deliveries
    ensures var (d, d') := (s.deliveries[t], Step(cfg, chainId, s, a).deliveries[t]);
            && d'.msg == d.msg
            && (d'.Breached? && !d.Breached? ==>
                  && a.ReadPrices? && a.spot == Some(d'.spot)
                  && (if a.cachedTwap.Some? then a.cachedTwap else a.chainTwap) == Some(d'.twap))
            && (d'.Authorised? && !d.Authorised? ==>
                  d.Breached? && d'.spot == d.spot && d'.twap == d.twap && d'.at == s.now)
            && (d'.Answered? && !d.Answered? ==>
                  && d.Authorised? && d'.spot == d.spot && d'.twap == d.twap && d'.at == d.at
                  && a.SubmitOrder? && a.outcome == Sent(d'.txHash, d'.receipt))
  {}

  /** An execution is marked with the evidence of the delivery that wrote it. */
  lemma MarkCarried(cfg: KeeperConfig, chainId: nat, s: State, t: nat)
    requires t in s.deliveries && s.deliveries[t].Answered?
    ensures var (d, marks) := (s.deliveries[t], Step(cfg, chainId, s, WriteOutcome(t)).marks);
            marks == s.marks || marks == s.marks + [Mark(d.msg, d.spot, d.twap, d.at, d.txHash, d.receipt)]
  {}

  /** A finished tick expires exactly the rows pending on its chain whose deadline its clock has reached. */
  lemma TickExpires(cfg: KeeperConfig, chainId: nat, s: State, t: nat, id: nat)
    requires t in s.ticks && s.ticks[t].selected == [] && id in s.orders
    ensures var s', o := Step(cfg, chainId, s, FinishTick(t)), s.orders[id];
            && id in s'.orders && t !in s'.ticks
            && (s'.orders[id] == if o.chainId == chainId && o.status == Pending && o.deadline <= s.ticks[t].now
                                 then o.(status := Expired) else o)
  {
    ExpiredByTick(s.orders, chainId, s.ticks[t].now, id);
  }

  // ─── Leaving pending, and staying there ───────────────────────────────────

  /** How often row `id` went from pending to something else along the run. */
  function DeparturesFromPending(cfg: KeeperConfig, chainId: nat, actions: seq<Action>, id: nat): nat {
    if actions == [] then 0
    else
      var before := Run(cfg, chainId, actions[..|actions| - 1]);
      var after := Run(cfg, chainId, actions);
      DeparturesFromPending(cfg, chainId, actions[..|actions| - 1], id) +
      (if id in before.orders && before.orders[id].status == Pending && id in after.orders && after.orders[id].status != Pending
       then 1 else 0)
  }

  lemma NoReturnToPending(cfg: KeeperConfig, chainId: nat, s: State, a: Action, id: nat)
    requires FreshIds(s) && id in s.orders && s.orders[id].status != Pending
    ensures var s' := Step(cfg, chainId, s, a); id in s'.orders && s'.orders[id].status != Pending
  {}

  lemma {:induction false} DeparturesCounted(cfg: KeeperConfig, chainId: nat, actions: seq<Action>, id: nat)
    ensures var s := Run(cfg, chainId, actions);
            DeparturesFromPending(cfg, chainId, actions, id)
            == (if id in s.orders && s.orders[id].status != Pending then 1 else 0)
  {
    if actions != [] {
      var front, a := actions[..|actions| - 1], actions[|actions| - 1];
      DeparturesCounted(cfg, chainId, front, id);
      RunKeepsInv(cfg, chainId, front);
      StepExtends(cfg, chainId, Run(cfg, chainId, front), a);
      if id in Run(cfg, chainId, front).orders && Run(cfg, chainId, front).orders[id].status != Pending {
        NoReturnToPending(cfg, chainId, Run(cfg, chainId, front), a, id);
      }
      if id !in Run(cfg, chainId, front).orders {
        NewRowsArePending(cfg, chainId, Run(cfg, chainId, front), a, id);
      }
    }
  }

  lemma NewRowsArePending(cfg: KeeperConfig, chainId: nat, s: State, a: Action, id: nat)
    requires id !in s.orders
    ensures var s' := Step(cfg, chainId, s, a); id in s'.orders ==> s'.orders[id].status == Pending
  {}

  /** No two rows of one chain share an on-chain order. */
  ghost predicate OneRowPerOnchainOrder(orders: Orders) {
    forall a, b :: a in orders && b in orders && SameOnchainOrder(orders[a], orders[b]) ==> a == b
  }

  predicate SameOnchainOrder(a: Order, b: Order) {
    a.onchainOrderId.Some? && a.onchainOrderId == b.onchainOrderId && a.chainId == b.chainId
  }

  lemma SameTermsKeepUnique(before: Orders, after: Orders)
    requires OneRowPerOnchainOrder(before) && Extends(before, after) && after.Keys == before.Keys
    ensures OneRowPerOnchainOrder(after)
  {
    forall a, b | a in after && b in after && SameOnchainOrder(after[a], after[b]) ensures a == b {
      assert SameTerms(before[a], after[a]) && SameTerms(before[b], after[b]);
    }
  }

  lemma OtherStepsAddNoRow(cfg: KeeperConfig, chainId: nat, s: State, a: Action)
    requires !a.Create?
    ensures Step(cfg, chainId, s, a).orders.Keys == s.orders.Keys
  {}

  /**
   * In every run a message executes at most one row's on-chain order: no two rows share one,
   * so a delivery's submission stands for its own row alone.
   */
  lemma {:induction false} OnchainOrdersAreUnique(cfg: KeeperConfig, chainId: nat, actions: seq<Action>)
    ensures OneRowPerOnchainOrder(Run(cfg, chainId, actions).orders)
  {
    if actions != [] {
      var front, a := actions[..|actions| - 1], actions[|actions| - 1];
      OnchainOrdersAreUnique(cfg, chainId, front);
      RunKeepsInv(cfg, chainId, front);
      var s := Run(cfg, chainId, front);
      if !a.Create? {
        StepExtends(cfg, chainId, s, a);
        OtherStepsAddNoRow(cfg, chainId, s, a);
        SameTermsKeepUnique(s.orders, Step(cfg, chainId, s, a).orders);
      }
    }
  }

  /** An order leaves pending at most once, over any run. */
  lemma AtMostOneDeparture(cfg: KeeperConfig, chainId: nat, actions: seq<Action>, id: nat)
    ensures DeparturesFromPending(cfg, chainId, actions, id) <= 1
  {
    DeparturesCounted(cfg, chainId, actions, id);
  }

  /** The queue handler is about to write over a row that is no longer what it read. */
  predicate StaleExpiry(s: State, a: Action, id: nat) {
    && a.WriteExpired? && a.task in s.deliveries && s.deliveries[a.task].Overdue?
    && s.deliveries[a.task].msg.orderId == id
    && id in s.orders && s.orders[id].chainId == s.deliveries[a.task].msg.chainId
    && (s.orders[id].status == Executed || s.orders[id].status == Cancelled)
  }

  /**
   * A settled row changes status in exactly one situation: the handler's expiry write, which
   * does not look at the status, reaches a row that was settled after the handler read it.
   */
  lemma SettledRowChangesIff(cfg: KeeperConfig, chainId: nat, s: State, a: Action, id: nat)
    requires FreshIds(s) && id in s.orders && s.orders[id].status != Pending
    ensures var s' := Step(cfg, chainId, s, a);
            && id in s'.orders
            && (s'.orders[id].status != s.orders[id].status <==> StaleExpiry(s, a, id))
            && (StaleExpiry(s, a, id) ==> s'.orders[id].status == Expired)
  {
    if !a.WriteExpired? {
      OtherStepsKeepSettled(cfg, chainId, s, a, id);
    }
  }

  lemma OtherStepsKeepSettled(cfg: KeeperConfig, chainId: nat, s: State, a: Action, id: nat)
    requires FreshIds(s) && id in s.orders && s.orders[id].status != Pending && !a.WriteExpired?
    ensures var s' := Step(cfg, chainId, s, a); id in s'.orders && s'.orders[id].status == s.orders[id].status
  {}

  /**
   * The schedule takes a handler's read, deadline check and expiry write as one step: nothing
   * comes in between. (A write that is not due changes nothing.)
   */
  ghost predicate ReadsAndExpiresAtOnce(actions: seq<Action>) {
    forall k :: 0 <= k < |actions| - 1 && actions[k].ReadRow? ==>
      && actions[k + 1] == CheckDeadline(actions[k].task)
      && (k + 2 < |actions| ==> actions[k + 2] == WriteExpired(actions[k].task))
  }

  /** How a delivery that has read its row looks just after the last step of `actions`. */
  ghost predicate JustRead(orders: Orders, actions: seq<Action>, t: nat, d: Delivery) {
    var n := |actions|;
    && (d.ReadPending? ==> n >= 1 && actions[n - 1] == ReadRow(t) && IsPending(orders, d.msg.orderId, d.msg.chainId))
    && (d.Overdue? ==> n >= 2 && actions[n - 2] == ReadRow(t) && actions[n - 1] == CheckDeadline(t)
                       && IsPending(orders, d.msg.orderId, d.msg.chainId))
  }

  lemma StepKeepsJustRead(cfg: KeeperConfig, chainId: nat, s: State, front: seq<Action>, a: Action, t: nat)
    requires ReadsAndExpiresAtOnce(front + [a])
    requires t in s.deliveries ==> JustRead(s.orders, front, t, s.deliveries[t])
    ensures var s' := Step(cfg, chainId, s, a);
            t in s'.deliveries ==> JustRead(s'.orders, front + [a], t, s'.deliveries[t])
  {
    var n, all := |front|, front + [a];
    if t in s.deliveries && s.deliveries[t].ReadPending? {
      assert all[n - 1] == ReadRow(t) && a == all[n];
    }
    if t in s.deliveries && s.deliveries[t].Overdue? {
      assert all[n - 2] == ReadRow(t) && a == all[n - 2 + 2];
    }
  }

  lemma {:induction false} RunKeepsJustRead(cfg: KeeperConfig, chainId: nat, actions: seq<Action>, t: nat)
    requires ReadsAndExpiresAtOnce(actions)
    ensures var s := Run(cfg, chainId, actions); t in s.deliveries ==> JustRead(s.orders, actions, t, s.deliveries[t])
  {
    if actions != [] {
      var front, a := actions[..|actions| - 1], actions[|actions| - 1];
      assert actions == front + [a];
      RunKeepsJustRead(cfg, chainId, front, t);
      StepKeepsJustRead(cfg, chainId, Run(cfg, chainId, front), front, a, t);
    }
  }

  /** Under such a schedule an expiry write always finds the row as it was read. */
  lemma NoStaleExpiry(cfg: KeeperConfig, chainId: nat, front: seq<Action>, a: Action, id: nat)
    requires ReadsAndExpiresAtOnce(front)
    ensures !StaleExpiry(Run(cfg, chainId, front), a, id)
  {
    if a.WriteExpired? {
      RunKeepsJustRead(cfg, chainId, front, a.task);
    }
  }

  /** With the handler's read-and-expire as one step, a settled order keeps its status for good. */
  lemma {:induction false} SettledForGood(cfg: KeeperConfig, chainId: nat, actions: seq<Action>, k: nat, id: nat)
    requires ReadsAndExpiresAtOnce(actions) && k <= |actions|
    requires var s := Run(cfg, chainId, actions[..k]); id in s.orders && s.orders[id].status != Pending
    ensures var s, s' := Run(cfg, chainId, actions[..k]), Run(cfg, chainId, actions);
            id in s'.orders && s'.orders[id].status == s.orders[id].status
  {
    if k == |actions| {
      assert actions[..k] == actions;
    } else {
      var n := |actions| - 1;
      var front := actions[..n];
      assert front[..k] == actions[..k];
      SettledForGood(cfg, chainId, front, k, id);
      RunKeepsInv(cfg, chainId, front);
      NoStaleExpiry(cfg, chainId, front, actions[n], id);
      SettledRowChangesIff(cfg, chainId, Run(cfg, chainId, front), actions[n], id);
    }
  }

  lemma RunOne(cfg: KeeperConfig, chainId: nat, actions: seq<Action>, a: Action)
    ensures Run(cfg, chainId, actions + [a]) == Step(cfg, chainId, Run(cfg, chainId, actions), a)
  {
    assert (actions + [a])[..|actions + [a]| - 1] == actions;
  }

  /** Create an order, run a keeper tick, deliver its message and read the row. */
  function ReadAnOrder(terms: Order, msg: Message): seq<Action> {
    [Create(terms)] + [BeginKeeperTick(0, [0])] + [EnqueueNext(0, true)] + [Deliver(0, msg)] + [ReadRow(0)]
  }

  /** One order, its message sent by a finished selection, and the delivery of that message. */
  function Solo(row: Order, now: nat, queue: set<Message>, deliveries: map<nat, Delivery>, selected: seq<(nat, Order)>): State {
    State(map[0 := row], 1, now, queue, deliveries, map[0 := Tick(0, selected)], [], {})
  }

  lemma SelectSteps(cfg: KeeperConfig, row: Order)
    requires row.deadline > 0 && row.status == Pending && row.createdAt == 0 && row.executionTxHash == None
    ensures var c := row.chainId;
            && Step(cfg, c, Initial, Create(row)) == State(map[0 := row], 1, 0, {}, map[], map[], [], {})
            && Step(cfg, c, State(map[0 := row], 1, 0, {}, map[], map[], [], {}), BeginKeeperTick(0, [0]))
               == Solo(row, 0, {}, map[], [(0, row)])
  {
    assert Snapshot(map[0 := row], [0]) == [(0, row)];
  }

  lemma ReadSteps(cfg: KeeperConfig, row: Order, msg: Message)
    requires row.status == Pending && MessageFor(0, row) == Some(msg)
    ensures var c := row.chainId;
            && Step(cfg, c, Solo(row, 0, {}, map[], [(0, row)]), EnqueueNext(0, true)) == Solo(row, 0, {msg}, map[], [])
            && Step(cfg, c, Solo(row, 0, {msg}, map[], []), Deliver(0, msg)) == Solo(row, 0, {msg}, map[0 := Received(msg)], [])
            && Step(cfg, c, Solo(row, 0, {msg}, map[0 := Received(msg)], []), ReadRow(0))
               == Solo(row, 0, {msg}, map[0 := ReadPending(msg, row.onchainOrderId)], [])
  {
    assert [(0, row)][1..] == [];
  }

  lemma {:induction false} OrderIsRead(cfg: KeeperConfig, row: Order, msg: Message)
    requires row.deadline > 0 && row.status == Pending && row.createdAt == 0 && row.executionTxHash == None
    requires MessageFor(0, row) == Some(msg)
    ensures Run(cfg, row.chainId, ReadAnOrder(row, msg))
         == Solo(row, 0, {msg}, map[0 := ReadPending(msg, row.onchainOrderId)], [])
  {
    SelectSteps(cfg, row);
    ReadSteps(cfg, row, msg);
    var c := row.chainId;
    var a1: seq<Action> := [Create(row)];
    RunOne(cfg, c, [], Create(row));
    assert [] + a1 == a1;
    RunOne(cfg, c, a1, BeginKeeperTick(0, [0]));
    RunOne(cfg, c, a1 + [BeginKeeperTick(0, [0])], EnqueueNext(0, true));
    RunOne(cfg, c, a1 + [BeginKeeperTick(0, [0])] + [EnqueueNext(0, true)], Deliver(0, msg));
    RunOne(cfg, c, a1 + [BeginKeeperTick(0, [0])] + [EnqueueNext(0, true)] + [Deliver(0, msg)], ReadRow(0));
  }

  lemma LateSteps(cfg: KeeperConfig, row: Order, msg: Message)
    requires row.status == Pending && row.onchainOrderId.Some? && MessageFor(0, row) == Some(msg)
    ensures var (c, late, cancelled) := (row.chainId, row.deadline + 1, row.(status := Cancelled));
            && Step(cfg, c, Solo(row, 0, {msg}, map[0 := ReadPending(msg, row.onchainOrderId)], []), Wait(late))
               == Solo(row, late, {msg}, map[0 := ReadPending(msg, row.onchainOrderId)], [])
            && Step(cfg, c, Solo(row, late, {msg}, map[0 := ReadPending(msg, row.onchainOrderId)], []), CheckDeadline(0))
               == Solo(row, late, {msg}, map[0 := Overdue(msg)], [])
            && Step(cfg, c, Solo(row, late, {msg}, map[0 := Overdue(msg)], []), Cancel(0, row.userAddress, c))
               == Solo(cancelled, late, {msg}, map[0 := Overdue(msg)], [])
            && Step(cfg, c, Solo(cancelled, late, {msg}, map[0 := Overdue(msg)], []), WriteExpired(0)).orders
               == map[0 := row.(status := Expired)]
  {}

  ghost predicate ExpiresCancelled(cfg: KeeperConfig, chainId: nat, actions: seq<Action>, a: Action) {
    var before, after := Run(cfg, chainId, actions).orders, Step(cfg, chainId, Run(cfg, chainId, actions), a).orders;
    0 in before && before[0].status == Cancelled && 0 in after && after[0].status == Expired
  }

  /** The interleaving is real: a user's cancellation can be overwritten by a late expiry. */
  lemma {:induction false} CancelledThenExpired(cfg: KeeperConfig, terms: Order)
    requires terms.onchainOrderId.Some? && terms.deadline > 0
    ensures exists actions: seq<Action>, a: Action :: ExpiresCancelled(cfg, terms.chainId, actions, a)
  {
    var c := terms.chainId;
    var row := terms.(status := Pending, createdAt := 0, executionTxHash := None);
    var msg := MessageFor(0, row).value;
    OrderIsRead(cfg, row, msg);
    LateSteps(cfg, row, msg);
    var read := ReadAnOrder(row, msg);
    var late: Action := Wait(row.deadline + 1);
    RunOne(cfg, c, read, late);
    RunOne(cfg, c, read + [late], CheckDeadline(0));
    RunOne(cfg, c, read + [late] + [CheckDeadline(0)], Cancel(0, row.userAddress, c));
    assert ExpiresCancelled(cfg, c, read + [late] + [CheckDeadline(0)] + [Cancel(0, row.userAddress, c)], WriteExpired(0));
  }

  /** The steps of one delivery with nothing in between; those past its end change nothing. */
  function UpToDeadline(cfg: KeeperConfig, chainId: nat, s: State, t: nat, msg: Message, a: Answers): State
    requires s.now <= a.now1
  {
    var s1 := Step(cfg, chainId, Step(cfg, chainId, s, Deliver(t, msg)), ReadRow(t));
    var s2 := Step(cfg, chainId, Step(cfg, chainId, s1, Wait(a.now1 - s.now)), CheckDeadline(t));
    Step(cfg, chainId, s2, WriteExpired(t))
  }

  function UpToGate(cfg: KeeperConfig, chainId: nat, s: State, t: nat, a: Answers): State
    requires a.now1 <= a.now2
  {
    var s1 := Step(cfg, chainId, s, ReadPrices(t, a.spot, a.cachedTwap, a.chainTwap));
    Step(cfg, chainId, Step(cfg, chainId, s1, Wait(a.now2 - a.now1)), Authorise(t))
  }

  function AfterDeadline(cfg: KeeperConfig, chainId: nat, s: State, t: nat, a: Answers): State
    requires a.now1 <= a.now2
  {
    var s2 := UpToGate(cfg, chainId, s, t, a);
    Step(cfg, chainId, Step(cfg, chainId, s2, SubmitOrder(t, a.signer)), WriteOutcome(t))
  }

  lemma ReadPart(cfg: KeeperConfig, chainId: nat, s: State, t: nat, msg: Message)
    requires t !in s.deliveries && msg in s.queue
    ensures Step(cfg, chainId, Step(cfg, chainId, s, Deliver(t, msg)), ReadRow(t))
         == if IsPending(s.orders, msg.orderId, msg.chainId)
            then Put(s, t, ReadPending(msg, s.orders[msg.orderId].onchainOrderId)) else s
  {
    assert s.deliveries[t := Received(msg)] - {t} == s.deliveries;
    if IsPending(s.orders, msg.orderId, msg.chainId) {
      var d := ReadPending(msg, s.orders[msg.orderId].onchainOrderId);
      assert s.deliveries[t := Received(msg)][t := d] == s.deliveries[t := d];
    }
  }

  lemma DeadlinePart(cfg: KeeperConfig, chainId: nat, s: State, t: nat, msg: Message, a: Answers)
    requires t !in s.deliveries && msg in s.queue && s.now <= a.now1
    ensures var s' := UpToDeadline(cfg, chainId, s, t, msg, a);
            var pending := IsPending(s.orders, msg.orderId, msg.chainId);
            && s'.now == a.now1
            && (if pending && a.now1 <= msg.deadline && s.orders[msg.orderId].onchainOrderId.Some?
                then s'.orders == s.orders && s'.deliveries == s.deliveries[t := InTime(msg)]
                else t !in s'.deliveries &&
                     s'.orders == if pending && a.now1 > msg.deadline then SetStatus(s.orders, msg.orderId, Expired) else s.orders)
  {
    ReadPart(cfg, chainId, s, t, msg);
  }

  /** The machine's steps, taken without interruption, are exactly what the handler method does. */
  lemma GatePart(cfg: KeeperConfig, chainId: nat, s: State, t: nat, msg: Message, a: Answers)
    requires s.now == a.now1 <= a.now2 && a.now1 <= msg.deadline
    requires t in s.deliveries && s.deliveries[t] == InTime(msg)
    requires IsPending(s.orders, msg.orderId, msg.chainId) && s.orders[msg.orderId].onchainOrderId.Some?
    ensures var s' := UpToGate(cfg, chainId, s, t, a);
            && s'.orders == s.orders
            && (if Submits(cfg, s.orders, msg, a)
                then t in s'.deliveries && s'.deliveries[t].Authorised? && s'.deliveries[t].msg == msg
                else t !in s'.deliveries)
  {}

  lemma OutcomePart(cfg: KeeperConfig, chainId: nat, s: State, t: nat, msg: Message, a: Answers)
    requires s.now == a.now1 <= a.now2 && a.now1 <= msg.deadline
    requires t in s.deliveries && s.deliveries[t] == InTime(msg)
    requires IsPending(s.orders, msg.orderId, msg.chainId) && s.orders[msg.orderId].onchainOrderId.Some?
    ensures AfterDeadline(cfg, chainId, s, t, a).orders == Effect(cfg, s.orders, msg, a)
  {
    GatePart(cfg, chainId, s, t, msg, a);
  }

  lemma EndedDelivery(cfg: KeeperConfig, chainId: nat, s: State, t: nat, a: Answers)
    requires t !in s.deliveries && a.now1 <= a.now2
    ensures AfterDeadline(cfg, chainId, s, t, a).orders == s.orders
  {}

  lemma {:induction false} UninterruptedDelivery(cfg: KeeperConfig, chainId: nat, s: State, t: nat, msg: Message, a: Answers)
    requires t !in s.deliveries && msg in s.queue && s.now <= a.now1 <= a.now2
    ensures AfterDeadline(cfg, chainId, UpToDeadline(cfg, chainId, s, t, msg, a), t, a).orders == Effect(cfg, s.orders, msg, a)
  {
    DeadlinePart(cfg, chainId, s, t, msg, a);
    var s' := UpToDeadline(cfg, chainId, s, t, msg, a);
    if t in s'.deliveries {
      OutcomePart(cfg, chainId, s', t, msg, a);
    } else {
      EndedDelivery(cfg, chainId, s', t, a);
    }
  }
}
