/**
 * Liquidity events and the decoders that turn a raw chain log into one.
 * A log's body is given already ABI-decoded; amounts are the exact integers the
 * source carries as decimal strings, and an address is its case-folded number.
 */
module LiquidityEvents {
  import opened Common
  import opened Sorting

  type Address = nat
  type TokenId = nat
  type TxHash = nat

  datatype EventType = Mint | Burn | Increase | Decrease | Collect | Transfer

  datatype LiquidityEvent = LiquidityEvent(
    eventType: EventType,
    txHash: TxHash,
    logIndex: nat,
    blockNumber: nat,
    poolId: Option<nat>,
    tokenId: Option<TokenId>,
    ownerAddress: Option<Address>,
    tickLower: Option<int>,
    tickUpper: Option<int>,
    liquidityDelta: Option<int>,
    amount0: Option<int>,
    amount1: Option<int>)

  /** Chain order: by block, then by log index within the block. */
  predicate ChainLeq(a: LiquidityEvent, b: LiquidityEvent) {
    a.blockNumber < b.blockNumber || (a.blockNumber == b.blockNumber && a.logIndex <= b.logIndex)
  }

  lemma ChainLeqIsTotalPreorder()
    ensures TotalPreorder(ChainLeq)
  {}

  datatype LogBody =
    | PmIncrease(tokenId: TokenId, liquidity: nat, amount0: nat, amount1: nat)
    | PmDecrease(tokenId: TokenId, liquidity: nat, amount0: nat, amount1: nat)
    | PmCollect(tokenId: TokenId, recipient: Address, amount0: nat, amount1: nat)
    | PmTransfer(tokenId: TokenId, to: Address)
    | PoolMint(owner: Address, tickLower: int, tickUpper: int, amount: nat, amount0: nat, amount1: nat)
    | PoolBurn(owner: Address, tickLower: int, tickUpper: int, amount: nat, amount0: nat, amount1: nat)
    | V4Initialize(poolId: nat)
    | V4ModifyLiquidity(poolId: nat, sender: Address, tickLower: int, tickUpper: int, delta: int)
    | V4Swap(poolId: nat, sender: Address)
    | Unrecognised

  datatype RawLog = RawLog(address: Address, blockNumber: nat, txHash: TxHash, logIndex: nat, body: LogBody)

  predicate LogBefore(a: RawLog, b: RawLog) {
    a.blockNumber < b.blockNumber || (a.blockNumber == b.blockNumber && a.logIndex < b.logIndex)
  }

  /** A position-manager log body about token `t`. */
  predicate AboutToken(body: LogBody, t: TokenId) {
    (body.PmIncrease? || body.PmDecrease? || body.PmCollect? || body.PmTransfer?) && body.tokenId == t
  }

  function BareEvent(log: RawLog, eventType: EventType): LiquidityEvent {
    LiquidityEvent(eventType, log.txHash, log.logIndex, log.blockNumber, None, None, None, None, None, None, None, None)
  }

  function ParsePositionManagerLog(log: RawLog): Option<LiquidityEvent> {
    match log.body
    case PmIncrease(id, liquidity, a0, a1) =>
      Some(BareEvent(log, Increase).(tokenId := Some(id), liquidityDelta := Some(liquidity),
                                     amount0 := Some(a0), amount1 := Some(a1)))
    case PmDecrease(id, liquidity, a0, a1) =>
      Some(BareEvent(log, Decrease).(tokenId := Some(id), liquidityDelta := Some(liquidity),
                                     amount0 := Some(a0), amount1 := Some(a1)))
    case PmCollect(id, recipient, a0, a1) =>
      Some(BareEvent(log, Collect).(tokenId := Some(id), ownerAddress := Some(recipient),
                                    amount0 := Some(a0), amount1 := Some(a1)))
    case PmTransfer(id, to) =>
      Some(BareEvent(log, Transfer).(tokenId := Some(id), ownerAddress := Some(to)))
    case _ => None
  }

  function ParsePoolLog(log: RawLog, poolId: nat): Option<LiquidityEvent> {
    match log.body
    case PoolMint(owner, lower, upper, amount, a0, a1) =>
      Some(BareEvent(log, Mint).(poolId := Some(poolId), ownerAddress := Some(owner), tickLower := Some(lower),
                                 tickUpper := Some(upper), liquidityDelta := Some(amount),
                                 amount0 := Some(a0), amount1 := Some(a1)))
    case PoolBurn(owner, lower, upper, amount, a0, a1) =>
      Some(BareEvent(log, Burn).(poolId := Some(poolId), ownerAddress := Some(owner), tickLower := Some(lower),
                                 tickUpper := Some(upper), liquidityDelta := Some(amount),
                                 amount0 := Some(a0), amount1 := Some(a1)))
    case _ => None
  }

  /** The liquidity-event row of a v4 `ModifyLiquidity` log. */
  function V4ModifyEvent(log: RawLog): LiquidityEvent
    requires log.body.V4ModifyLiquidity?
  {
    var b := log.body;
    BareEvent(log, if b.delta >= 0 then Increase else Decrease).(
      poolId := Some(b.poolId), ownerAddress := Some(b.sender), tickLower := Some(b.tickLower),
      tickUpper := Some(b.tickUpper), liquidityDelta := Some(b.delta))
  }
}
