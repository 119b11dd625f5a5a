/**
 * A position's books kept straight from the chain's logs, without decoding them into events:
 * what was put in, what was taken out, what was collected and who holds the token. They are
 * what the indexed table reduces to.
 */
module ChainBooks {
  import opened Common
  import opened LiquidityEvents
  import opened PositionReducer
  import opened EventTable
  import opened BatchIndexer
  import opened IndexerRuns

  // ─── The books ────────────────────────────────────────────────────────────

  /** The three quantities an increase or a decrease moves. */
  datatype Quantity = Liq | Token0 | Token1

  function Moved(body: LogBody, q: Quantity): nat {
    match body
    case PmIncrease(_, l, a0, a1) => (match q case Liq => l case Token0 => a0 case Token1 => a1)
    case PmDecrease(_, l, a0, a1) => (match q case Liq => l case Token0 => a0 case Token1 => a1)
    case PmCollect(_, _, a0, a1) => (match q case Liq => 0 case Token0 => a0 case Token1 => a1)
    case _ => 0
  }

  function PaidIn(q: Quantity): RawLog -> int {
    (log: RawLog) => if log.body.PmIncrease? then Moved(log.body, q) else 0
  }

  function TakenOut(q: Quantity): RawLog -> int {
    (log: RawLog) => if log.body.PmDecrease? then Moved(log.body, q) else 0
  }

  function Collected(q: Quantity): RawLog -> int {
    (log: RawLog) => if log.body.PmCollect? then Moved(log.body, q) else 0
  }

  /** What is left after all that was paid in and taken out. */
  function Left(q: Quantity, logs: seq<RawLog>): int {
    SumOf(PaidIn(q), logs) - SumOf(TakenOut(q), logs)
  }

  /** The logs that count: all but the decreases asking for more than is left when they come. */
  function Honoured(logs: seq<RawLog>): seq<RawLog> {
    if logs == [] then []
    else
      var before, log := Honoured(logs[..|logs| - 1]), logs[|logs| - 1];
      if log.body.PmDecrease? && exists q :: Moved(log.body, q) > Left(q, before) then before
      else before + [log]
  }

  /** Who received the token last. */
  function Holder(logs: seq<RawLog>): Option<Address> {
    if logs == [] then None
    else if logs[|logs| - 1].body.PmTransfer? then Some(logs[|logs| - 1].body.to)
    else Holder(logs[..|logs| - 1])
  }

  /** Open from the start and after every transfer; a decrease closes the position by emptying it. */
  function Open(logs: seq<RawLog>): bool {
    if logs == [] then true
    else
      var last := logs[|logs| - 1].body;
      if last.PmTransfer? then true
      else if last.PmDecrease? then Left(Liq, logs) > 0
      else Open(logs[..|logs| - 1])
  }

  /** A reduced state is the books of the logs that count, field by field. */
  ghost predicate Booked(s: PositionState, t: TokenId, logs: seq<RawLog>) {
    && s.tokenId == t
    && s.ownerAddress == Holder(logs)
    && s.isActive == Open(logs)
    && s.liquidity == Left(Liq, logs)
    && s.amount0 == Left(Token0, logs)
    && s.amount1 == Left(Token1, logs)
    && s.costBasis0 == SumOf(PaidIn(Token0), logs)
    && s.costBasis1 == SumOf(PaidIn(Token1), logs)
    && s.fees0 == SumOf(Collected(Token0), logs)
    && s.fees1 == SumOf(Collected(Token1), logs)
  }

  // ─── The fold keeps the books ─────────────────────────────────────────────

  /** How one more log moves each sum. */
  lemma {:induction false} SumsStep(q: Quantity, logs: seq<RawLog>, log: RawLog)
    ensures var (more, b) := (logs + [log], log.body);
            && SumOf(PaidIn(q), more) == SumOf(PaidIn(q), logs) + (if b.PmIncrease? then Moved(b, q) else 0)
            && SumOf(TakenOut(q), more) == SumOf(TakenOut(q), logs) + (if b.PmDecrease? then Moved(b, q) else 0)
            && SumOf(Collected(q), more) == SumOf(Collected(q), logs) + (if b.PmCollect? then Moved(b, q) else 0)
  {
    SumSnoc(PaidIn(q), logs, log);
    SumSnoc(TakenOut(q), logs, log);
    SumSnoc(Collected(q), logs, log);
  }

  lemma {:induction false} HolderStep(logs: seq<RawLog>, log: RawLog)
    ensures Holder(logs + [log]) == if log.body.PmTransfer? then Some(log.body.to) else Holder(logs)
    ensures Open(logs + [log])
         == if log.body.PmTransfer? then true
            else if log.body.PmDecrease? then Left(Liq, logs + [log]) > 0
            else Open(logs)
  {
    assert (logs + [log])[..|logs + [log]| - 1] == logs;
  }

  /** The reducer rejects exactly the decreases the books reject, and books everything else. */
  lemma {:induction false} EventBooked(s: PositionState, t: TokenId, counted: seq<RawLog>, log: RawLog)
    requires Booked(s, t, counted) && AboutToken(log.body, t) && ParsePositionManagerLog(log).Some?
    ensures var next := ApplyEvent(s, ParsePositionManagerLog(log).value);
            && (next.None? <==> log.body.PmDecrease? && exists q :: Moved(log.body, q) > Left(q, counted))
            && (next.Some? ==> Booked(next.value, t, counted + [log]))
  {
    SumsStep(Liq, counted, log);
    SumsStep(Token0, counted, log);
    SumsStep(Token1, counted, log);
    HolderStep(counted, log);
    if log.body.PmDecrease? {
      assert Moved(log.body, Liq) == log.body.liquidity;
      assert Moved(log.body, Token0) == log.body.amount0;
      assert Moved(log.body, Token1) == log.body.amount1;
    }
  }

  /** The events of a token's logs, one for one. */
  ghost predicate Decodes(logs: seq<RawLog>, events: seq<LiquidityEvent>, t: TokenId) {
    && |events| == |logs|
    && forall i :: 0 <= i < |logs| ==> AboutToken(logs[i].body, t) && ParsePositionManagerLog(logs[i]) == Some(events[i])
  }

  lemma {:induction false} FoldKeepsBooks(logs: seq<RawLog>, events: seq<LiquidityEvent>, t: TokenId)
    requires Decodes(logs, events, t)
    ensures var m := Fold(map[], events);
            && (t in m <==> Honoured(logs) != [])
            && Booked(if t in m then m[t] else Initial(t), t, Honoured(logs))
  {
    if logs != [] {
      var n := |logs| - 1;
      FoldKeepsBooks(logs[..n], events[..n], t);
      var m := Fold(map[], events[..n]);
      assert AboutToken(logs[n].body, t) && ParsePositionManagerLog(logs[n]) == Some(events[n]);
      EventBooked(if t in m then m[t] else Initial(t), t, Honoured(logs[..n]), logs[n]);
    }
  }

  /**
   * End to end: whatever the delivery history, a fully indexed token has a reduced state
   * exactly when some log of it counts, and that state is the books of its chain's logs.
   */
  lemma {:induction false} TableReducesToBooks(w: World, actions: seq<Action>, t: TokenId)
    requires ValidWorld(w) && FullyIndexed(w, Run(w, Empty, actions), t)
    ensures var s := Run(w, Empty, actions);
            var m := Reduce(EventsOf(SelectEvents(s.rows, V3, t)));
            var logs := Honoured(Filter(MinedTokenLog(w, s.head, t), w.chain));
            && (t in m <==> logs != [])
            && (t in m ==> Booked(m[t], t, logs))
  {
    var s := Run(w, Empty, actions);
    var p := MinedTokenLog(w, s.head, t);
    var logs, events := Filter(p, w.chain), ChainEvents(w, s.head, t);
    forall i | 0 <= i < |logs| ensures AboutToken(logs[i].body, t) && ParsePositionManagerLog(logs[i]) == Some(events[i]) {
      assert logs[i] in logs;
      FilterMembers(p, w.chain, logs[i]);
    }
    TableReducesToChain(w, actions, t);
    FoldKeepsBooks(logs, events, t);
  }

  // ─── Every row speaks for its log ─────────────────────────────────────────

  /** The contracts whose logs an indexer asks for. */
  predicate Watches(cfg: Config, ix: Indexer, a: Address) {
    match ix
    case V3PositionManager => cfg.positionManager == Some(a)
    case V3Liquidity => cfg.positionManager == Some(a)
    case V3Pool => a in cfg.v3Pools
    case V4PoolManager => cfg.v4PoolManager == Some(a)
  }

  /** The logs an indexer keeps as liquidity events. */
  predicate Records(ix: Indexer, body: LogBody) {
    match body
    case PmIncrease(_, _, _, _) => ix == V3PositionManager || ix == V3Liquidity
    case PmDecrease(_, _, _, _) => ix == V3PositionManager || ix == V3Liquidity
    case PmCollect(_, _, _, _) => ix == V3PositionManager || ix == V3Liquidity
    case PmTransfer(_, _) => ix == V3PositionManager || ix == V3Liquidity
    case PoolMint(_, _, _, _, _, _) => ix == V3Pool
    case PoolBurn(_, _, _, _, _, _) => ix == V3Pool
    case V4ModifyLiquidity(_, _, _, _, _) => ix == V4PoolManager
    case _ => false
  }

  /** Every column of a row, against the log it stands for. */
  ghost predicate Tells(w: World, log: RawLog, r: EventRow) {
    var e := r.event;
    && e.txHash == log.txHash && e.logIndex == log.logIndex && e.blockNumber == log.blockNumber
    && r.blockTimestamp == w.blockTime(log.blockNumber)
    && (r.protocol == if log.body.V4ModifyLiquidity? then V4 else V3)
    && match log.body
       case PmIncrease(id, l, a0, a1) =>
         e.eventType == Increase && e.tokenId == Some(id) && Sizes(e, Some(l), Some(a0), Some(a1)) && Placed(e, None, None, None, None)
       case PmDecrease(id, l, a0, a1) =>
         e.eventType == Decrease && e.tokenId == Some(id) && Sizes(e, Some(l), Some(a0), Some(a1)) && Placed(e, None, None, None, None)
       case PmCollect(id, recipient, a0, a1) =>
         e.eventType == Collect && e.tokenId == Some(id) && Sizes(e, None, Some(a0), Some(a1)) && Placed(e, None, Some(recipient), None, None)
       case PmTransfer(id, to) =>
         e.eventType == Transfer && e.tokenId == Some(id) && Sizes(e, None, None, None) && Placed(e, None, Some(to), None, None)
       case PoolMint(owner, lower, upper, amount, a0, a1) =>
         && e.eventType == Mint && e.tokenId == None && Sizes(e, Some(amount), Some(a0), Some(a1))
         && Placed(e, Some(log.address), Some(owner), Some(lower), Some(upper))
       case PoolBurn(owner, lower, upper, amount, a0, a1) =>
         && e.eventType == Burn && e.tokenId == None && Sizes(e, Some(amount), Some(a0), Some(a1))
         && Placed(e, Some(log.address), Some(owner), Some(lower), Some(upper))
       case V4ModifyLiquidity(pool, sender, lower, upper, delta) =>
         && (e.eventType == if delta >= 0 then Increase else Decrease) && e.tokenId == None && Sizes(e, Some(delta), None, None)
         && Placed(e, Some(pool), Some(sender), Some(lower), Some(upper))
       case _ => false
  }

  predicate Sizes(e: LiquidityEvent, delta: Option<int>, a0: Option<int>, a1: Option<int>) {
    e.liquidityDelta == delta && e.amount0 == a0 && e.amount1 == a1
  }

  predicate Placed(e: LiquidityEvent, pool: Option<nat>, owner: Option<Address>, lower: Option<int>, upper: Option<int>) {
    e.poolId == pool && e.ownerAddress == owner && e.tickLower == lower && e.tickUpper == upper
  }

  /** The row an indexer writes for a log, if any, column by column. */
  lemma RowForIff(w: World, ix: Indexer, log: RawLog, r: EventRow)
    ensures RowFor(w, ix, log) == Some(r) <==> Watches(w.cfg, ix, log.address) && Records(ix, log.body) && Tells(w, log, r)
  {}

  /** A log an indexer watches and keeps has a row. */
  lemma RecordedHasRow(w: World, ix: Indexer, log: RawLog)
    ensures RowFor(w, ix, log).Some? <==> Watches(w.cfg, ix, log.address) && Records(ix, log.body)
  {}

  /**
   * Coverage in terms of the logs themselves: in every run each log an indexer watches and
   * keeps, between its start and its cursor, has a row that tells it column by column.
   */
  lemma CoveredLogsAreTold(w: World, actions: seq<Action>, ix: Indexer, log: RawLog)
    requires ValidWorld(w)
    requires var s := Run(w, Empty, actions);
             ix in s.cursors && ix in s.starts && s.starts[ix] <= log.blockNumber < s.cursors[ix]
    requires log in w.chain && Watches(w.cfg, ix, log.address) && Records(ix, log.body)
    ensures exists r :: r in Run(w, Empty, actions).rows && Tells(w, log, r)
  {
    var s := Run(w, Empty, actions);
    Coverage(w, actions);
    assert Covered(w, s.rows, ix, s.starts[ix], s.cursors[ix]);
    RecordedHasRow(w, ix, log);
    RowForIff(w, ix, log, RowFor(w, ix, log).value);
  }

  /** And in every run each row tells a mined log that some indexer watches and keeps. */
  lemma RowsTellMinedLogs(w: World, actions: seq<Action>, r: EventRow) returns (log: RawLog, ix: Indexer)
    requires ValidWorld(w) && r in Run(w, Empty, actions).rows
    ensures log in w.chain && log.blockNumber <= Run(w, Empty, actions).head
    ensures Watches(w.cfg, ix, log.address) && Records(ix, log.body) && Tells(w, log, r)
  {
    var s := Run(w, Empty, actions);
    Coverage(w, actions);
    assert Real(w, s.head, r);
    log, ix :| log in w.chain && log.blockNumber <= s.head && RowFor(w, ix, log) == Some(r);
    RowForIff(w, ix, log, r);
  }
}
