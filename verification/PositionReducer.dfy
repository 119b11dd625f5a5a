/**
 * `reduceV3PositionEvents`: sort the events into chain order and fold them into
 * one state per position token.
 */
module PositionReducer {
  import opened Common
  import opened Sorting
  import opened LiquidityEvents

  datatype PositionState = PositionState(
    tokenId: TokenId,
    ownerAddress: Option<Address>,
    isActive: bool,
    liquidity: int,
    amount0: int,
    amount1: int,
    fees0: int,
    fees1: int,
    costBasis0: int,
    costBasis1: int)

  function Initial(t: TokenId): PositionState {
    PositionState(t, None, true, 0, 0, 0, 0, 0, 0, 0)
  }

  function ToBigInt(v: Option<int>): int {
    match v case None => 0 case Some(x) => x
  }

  /** The next state, or `None` when a decrease asks for more than the position holds. */
  function ApplyEvent(s: PositionState, e: LiquidityEvent): Option<PositionState> {
    match e.eventType
    case Transfer => Some(s.(ownerAddress := e.ownerAddress, isActive := e.ownerAddress.Some?))
    case Collect => Some(s.(fees0 := s.fees0 + ToBigInt(e.amount0), fees1 := s.fees1 + ToBigInt(e.amount1)))
    case Increase =>
      Some(s.(liquidity := s.liquidity + ToBigInt(e.liquidityDelta),
              amount0 := s.amount0 + ToBigInt(e.amount0), amount1 := s.amount1 + ToBigInt(e.amount1),
              costBasis0 := s.costBasis0 + ToBigInt(e.amount0), costBasis1 := s.costBasis1 + ToBigInt(e.amount1)))
    case Decrease =>
      var d, d0, d1 := ToBigInt(e.liquidityDelta), ToBigInt(e.amount0), ToBigInt(e.amount1);
      if d > s.liquidity || d0 > s.amount0 || d1 > s.amount1 then None
      else Some(s.(isActive := s.liquidity - d > 0, liquidity := s.liquidity - d,
                   amount0 := s.amount0 - d0, amount1 := s.amount1 - d1))
    case _ => Some(s)
  }

  /** An event without an amount moves none: it acts as if the amount were given as zero. */
  lemma MissingCountsAsZero(s: PositionState, e: LiquidityEvent)
    ensures e.liquidityDelta.None? ==> ApplyEvent(s, e) == ApplyEvent(s, e.(liquidityDelta := Some(0)))
    ensures e.amount0.None? ==> ApplyEvent(s, e) == ApplyEvent(s, e.(amount0 := Some(0)))
    ensures e.amount1.None? ==> ApplyEvent(s, e) == ApplyEvent(s, e.(amount1 := Some(0)))
  {}

  type States = map<TokenId, PositionState>

  /** One iteration of the fold: events without a token and rejected events change nothing. */
  function Absorb(states: States, e: LiquidityEvent): States {
    match e.tokenId
    case None => states
    case Some(t) =>
      match ApplyEvent(if t in states then states[t] else Initial(t), e)
      case None => states
      case Some(next) => states[t := next]
  }

  function Fold(states: States, events: seq<LiquidityEvent>): States {
    if events == [] then states else Absorb(Fold(states, events[..|events| - 1]), events[|events| - 1])
  }

  function Reduce(events: seq<LiquidityEvent>): States {
    Fold(map[], Sort(ChainLeq, events))
  }

  method ReduceV3PositionEvents(events: seq<LiquidityEvent>) returns (states: States)
    ensures states == Reduce(events)
  {
    states := map[];
    var ordered := Sort(ChainLeq, events);
    for i := 0 to |ordered|
      invariant states == Fold(map[], ordered[..i])
    {
      var event := ordered[i];
      assert ordered[..i + 1][..i] == ordered[..i];
      if event.tokenId.None? { continue; }
      var t := event.tokenId.value;
      var previous := if t in states then states[t] else Initial(t);
      var next := ApplyEvent(previous, event);
      if next.Some? {
        states := states[t := next.value];
      }
    }
    assert ordered[..|ordered|] == ordered;
  }

  // ─── Order independence, resumption, filtering ────────────────────────────

  ghost predicate DistinctKeys(events: seq<LiquidityEvent>) {
    NoTies(ChainLeq, events)
  }

  lemma SameSortedEvents(a: seq<LiquidityEvent>, b: seq<LiquidityEvent>)
    requires DistinctKeys(a) && DistinctKeys(b)
    requires forall e :: e in a <==> e in b
    ensures Sort(ChainLeq, a) == Sort(ChainLeq, b)
  {
    var x, y := Sort(ChainLeq, a), Sort(ChainLeq, b);
    SortSorts(ChainLeq, a);
    SortSorts(ChainLeq, b);
    SortNoTies(ChainLeq, a);
    SortNoTies(ChainLeq, b);
    forall e ensures e in x <==> e in y {
      SortMembers(ChainLeq, a, e);
      SortMembers(ChainLeq, b, e);
    }
    SortedUnique(ChainLeq, x, y);
  }

  /** Delivery order is irrelevant: only which events were delivered matters. */
  lemma OrderIndependent(a: seq<LiquidityEvent>, b: seq<LiquidityEvent>)
    requires DistinctKeys(a) && DistinctKeys(b)
    requires forall e :: e in a <==> e in b
    ensures Reduce(a) == Reduce(b)
  {
    SameSortedEvents(a, b);
  }

  lemma {:induction false} FoldConcat(states: States, a: seq<LiquidityEvent>, b: seq<LiquidityEvent>)
    ensures Fold(states, a + b) == Fold(Fold(states, a), b)
  {
    if b == [] {
      assert a + b == a;
    } else {
      FoldConcat(states, a, b[..|b| - 1]);
      assert (a + b)[..|a + b| - 1] == a + b[..|b| - 1];
    }
  }

  /** Folding a later batch onto an earlier result equals folding everything at once. */
  lemma Resumable(earlier: seq<LiquidityEvent>, later: seq<LiquidityEvent>)
    requires forall x, y :: x in earlier && y in later ==> ChainLeq(x, y)
    ensures Reduce(earlier + later) == Fold(Reduce(earlier), Sort(ChainLeq, later))
  {
    SortConcat(ChainLeq, earlier, later);
    FoldConcat(map[], Sort(ChainLeq, earlier), Sort(ChainLeq, later));
  }

  function OfToken(t: TokenId): LiquidityEvent -> bool {
    (e: LiquidityEvent) => e.tokenId == Some(t)
  }

  lemma {:induction false} FoldFilter(states: States, t: TokenId, events: seq<LiquidityEvent>)
    ensures Lookup(Fold(states, events), t) == Lookup(Fold(states, Filter(OfToken(t), events)), t)
  {
    if events != [] {
      var front, last := events[..|events| - 1], events[|events| - 1];
      FoldFilter(states, t, front);
      FilterConcat(OfToken(t), front, [last]);
      assert events == front + [last];
      var f := Filter(OfToken(t), front);
      if last.tokenId == Some(t) {
        assert Filter(OfToken(t), [last]) == [last];
        assert (f + [last])[..|f + [last]| - 1] == f;
      } else {
        assert Filter(OfToken(t), [last]) == [];
        assert f + [] == f;
      }
    }
  }

  /** A token's state depends on that token's events alone. */
  lemma FilterCommutes(events: seq<LiquidityEvent>, t: TokenId)
    ensures Lookup(Reduce(events), t) == Lookup(Reduce(Filter(OfToken(t), events)), t)
  {
    ChainLeqIsTotalPreorder();
    SortFilter(ChainLeq, OfToken(t), events);
    FoldFilter(map[], t, Sort(ChainLeq, events));
  }

  /** With a shared (block, logIndex) the input order shows: the assumption is needed. */
  lemma OrderMattersOnTies()
    ensures exists a, b: LiquidityEvent :: a != b && Reduce([a, b]) != Reduce([b, a])
  {
    var a := LiquidityEvent(Transfer, 1, 0, 0, None, Some(7), Some(1), None, None, None, None, None);
    var b := a.(ownerAddress := Some(2));
    assert Sort(ChainLeq, [a, b]) == [a, b] by { SortOfSorted(ChainLeq, [a, b]); }
    assert Sort(ChainLeq, [b, a]) == [b, a] by { SortOfSorted(ChainLeq, [b, a]); }
    FoldPair(a, b);
    FoldPair(b, a);
    assert Reduce([a, b])[7].ownerAddress == Some(2);
    assert Reduce([b, a])[7].ownerAddress == Some(1);
  }

  lemma FoldPair(a: LiquidityEvent, b: LiquidityEvent)
    ensures Fold(map[], [a, b]) == Absorb(Absorb(map[], a), b)
  {
    assert [a, b][..1] == [a] && [a][..0] == [];
    assert Fold(map[], [a]) == Absorb(Fold(map[], []), a);
  }

  // ─── What the state means ─────────────────────────────────────────────────

  function DeltaIf(kind: EventType, field: LiquidityEvent -> Option<int>): LiquidityEvent -> int {
    (e: LiquidityEvent) => if e.eventType == kind then ToBigInt(field(e)) else 0
  }

  const Liquidity: LiquidityEvent -> Option<int> := (e: LiquidityEvent) => e.liquidityDelta
  const Amount0: LiquidityEvent -> Option<int> := (e: LiquidityEvent) => e.amount0
  const Amount1: LiquidityEvent -> Option<int> := (e: LiquidityEvent) => e.amount1

  /** What is left of `field` after all increases and the accepted decreases. */
  function Balance(field: LiquidityEvent -> Option<int>, events: seq<LiquidityEvent>): int
    decreases |events|, 1
  {
    SumOf(DeltaIf(Increase, field), events) - SumOf(DeltaIf(Decrease, field), Accepted(events))
  }

  /** Whether a decrease arriving after `front` is covered by every balance. */
  predicate Fits(front: seq<LiquidityEvent>, e: LiquidityEvent)
    decreases |front|, 2
  {
    && e.eventType == Decrease
    && ToBigInt(e.liquidityDelta) <= Balance(Liquidity, front)
    && ToBigInt(e.amount0) <= Balance(Amount0, front)
    && ToBigInt(e.amount1) <= Balance(Amount1, front)
  }

  /** The decreases every balance could cover at their place in the sequence. */
  function Accepted(events: seq<LiquidityEvent>): seq<LiquidityEvent>
    decreases |events|, 0
  {
    if events == [] then [] else
      var front, e := events[..|events| - 1], events[|events| - 1];
      if Fits(front, e) then Accepted(front) + [e] else Accepted(front)
  }

  /** The recipient of the last transfer. */
  function LastRecipient(events: seq<LiquidityEvent>): Option<Address> {
    if events == [] then None
    else if events[|events| - 1].eventType == Transfer then events[|events| - 1].ownerAddress
    else LastRecipient(events[..|events| - 1])
  }

  /**
   * The active flag: set by the last transfer or accepted decrease, whichever came later.
   * Increases do not touch it.
   */
  function ActiveFlag(events: seq<LiquidityEvent>): bool {
    if events == [] then true
    else
      var front, e := events[..|events| - 1], events[|events| - 1];
      if e.eventType == Transfer then e.ownerAddress.Some?
      else if Fits(front, e) then Balance(Liquidity, events) > 0
      else ActiveFlag(front)
  }

  ghost predicate OneToken(t: TokenId, events: seq<LiquidityEvent>) {
    forall e :: e in events ==> e.tokenId == Some(t)
  }

  ghost predicate NonNegativeAmounts(events: seq<LiquidityEvent>) {
    forall e :: e in events ==>
      ToBigInt(e.liquidityDelta) >= 0 && ToBigInt(e.amount0) >= 0 && ToBigInt(e.amount1) >= 0
  }

  ghost predicate Accounted(s: PositionState, events: seq<LiquidityEvent>) {
    && s.liquidity == Balance(Liquidity, events)
    && s.amount0 == Balance(Amount0, events)
    && s.amount1 == Balance(Amount1, events)
    && s.costBasis0 == SumOf(DeltaIf(Increase, Amount0), events)
    && s.costBasis1 == SumOf(DeltaIf(Increase, Amount1), events)
    && s.costBasis0 - s.amount0 == SumOf(DeltaIf(Decrease, Amount0), Accepted(events))
    && s.costBasis1 - s.amount1 == SumOf(DeltaIf(Decrease, Amount1), Accepted(events))
    && s.fees0 == SumOf(DeltaIf(Collect, Amount0), events)
    && s.fees1 == SumOf(DeltaIf(Collect, Amount1), events)
    && s.ownerAddress == LastRecipient(events)
    && s.isActive == ActiveFlag(events)
  }

  lemma SumSnoc<T>(f: T -> int, s: seq<T>, x: T)
    ensures SumOf(f, s + [x]) == SumOf(f, s) + f(x)
  {
    assert (s + [x])[..|s + [x]| - 1] == s;
  }

  /** How one more event moves a balance and the accepted withdrawals behind it. */
  lemma {:induction false} BalanceStep(field: LiquidityEvent -> Option<int>, front: seq<LiquidityEvent>, e: LiquidityEvent)
    ensures var withdrawn := if Fits(front, e) then ToBigInt(field(e)) else 0;
            && Balance(field, front + [e]) == Balance(field, front) + DeltaIf(Increase, field)(e) - withdrawn
            && SumOf(DeltaIf(Decrease, field), Accepted(front + [e]))
               == SumOf(DeltaIf(Decrease, field), Accepted(front)) + withdrawn
  {
    assert (front + [e])[..|front + [e]| - 1] == front;
    SumSnoc(DeltaIf(Increase, field), front, e);
    SumSnoc(DeltaIf(Decrease, field), Accepted(front), e);
  }

  /** The same for one of the two amounts: balance, increases, collects, accepted decreases. */
  lemma {:induction false} AmountStep(field: LiquidityEvent -> Option<int>, front: seq<LiquidityEvent>, e: LiquidityEvent)
    ensures var (log, v) := (front + [e], ToBigInt(field(e)));
            && Balance(field, log) == Balance(field, front)
                 + (if e.eventType == Increase then v else 0) - (if Fits(front, e) then v else 0)
            && SumOf(DeltaIf(Increase, field), log) == SumOf(DeltaIf(Increase, field), front) + (if e.eventType == Increase then v else 0)
            && SumOf(DeltaIf(Collect, field), log) == SumOf(DeltaIf(Collect, field), front) + (if e.eventType == Collect then v else 0)
            && SumOf(DeltaIf(Decrease, field), Accepted(log))
               == SumOf(DeltaIf(Decrease, field), Accepted(front)) + (if Fits(front, e) then v else 0)
  {
    BalanceStep(field, front, e);
    SumSnoc(DeltaIf(Increase, field), front, e);
    SumSnoc(DeltaIf(Collect, field), front, e);
  }

  lemma {:induction false} FlagStep(front: seq<LiquidityEvent>, e: LiquidityEvent)
    ensures LastRecipient(front + [e]) == if e.eventType == Transfer then e.ownerAddress else LastRecipient(front)
    ensures ActiveFlag(front + [e])
         == if e.eventType == Transfer then e.ownerAddress.Some?
            else if Fits(front, e) then Balance(Liquidity, front + [e]) > 0
            else ActiveFlag(front)
  {
    assert (front + [e])[..|front + [e]| - 1] == front;
  }

  lemma {:induction false} AbsorbAccounted(s: PositionState, front: seq<LiquidityEvent>, e: LiquidityEvent)
    requires Accounted(s, front)
    ensures Accounted(match ApplyEvent(s, e) case None => s case Some(next) => next, front + [e])
  {
    AmountStep(Liquidity, front, e);
    AmountStep(Amount0, front, e);
    AmountStep(Amount1, front, e);
    FlagStep(front, e);
    assert Liquidity(e) == e.liquidityDelta && Amount0(e) == e.amount0 && Amount1(e) == e.amount1;
  }

  lemma {:induction false} FoldAccounted(t: TokenId, events: seq<LiquidityEvent>)
    requires OneToken(t, events)
    ensures var m := Fold(map[], events); Accounted(if t in m then m[t] else Initial(t), events)
  {
    if events != [] {
      var front, e := events[..|events| - 1], events[|events| - 1];
      assert events == front + [e] && e in events;
      FoldAccounted(t, front);
      var m := Fold(map[], front);
      AbsorbAccounted(if t in m then m[t] else Initial(t), front, e);
    }
  }

  lemma {:induction false} BalancesNonNegative(events: seq<LiquidityEvent>)
    requires NonNegativeAmounts(events)
    ensures Balance(Liquidity, events) >= 0 && Balance(Amount0, events) >= 0 && Balance(Amount1, events) >= 0
    ensures NonNegativeAmounts(Accepted(events))
  {
    if events != [] {
      var front, e := events[..|events| - 1], events[|events| - 1];
      BalancesNonNegative(front);
      assert events == front + [e] && e in events;
      BalanceStep(Liquidity, front, e);
      BalanceStep(Amount0, front, e);
      BalanceStep(Amount1, front, e);
    }
  }

  /** The chain-ordered events of one token. */
  function TokenLog(events: seq<LiquidityEvent>, t: TokenId): seq<LiquidityEvent> {
    Filter(OfToken(t), Sort(ChainLeq, events))
  }

  /**
   * The books balance for every event list: the reduced state is the increases less the
   * accepted decreases, the collected fees and the last owner; non-negative amounts never
   * drive liquidity or an amount below zero.
   */
  lemma Accounting(events: seq<LiquidityEvent>, t: TokenId)
    requires t in Reduce(events)
    ensures Accounted(Reduce(events)[t], TokenLog(events, t))
    ensures NonNegativeAmounts(events) ==>
              var s := Reduce(events)[t];
              s.liquidity >= 0 && 0 <= s.amount0 <= s.costBasis0 && 0 <= s.amount1 <= s.costBasis1
  {
    var log := TokenLog(events, t);
    FoldFilter(map[], t, Sort(ChainLeq, events));
    forall e | e in log ensures e.tokenId == Some(t) && e in events {
      FilterMembers(OfToken(t), Sort(ChainLeq, events), e);
      SortMembers(ChainLeq, events, e);
    }
    FoldAccounted(t, log);
    if NonNegativeAmounts(events) {
      BalancesNonNegative(log);
      SumNonNegative(DeltaIf(Decrease, Amount0), Accepted(log));
      SumNonNegative(DeltaIf(Decrease, Amount1), Accepted(log));
    }
  }

  /** The flag is not "liquidity is positive": re-opening an emptied position leaves it false. */
  lemma {:induction false} ReopenedPositionStaysInactive(t: TokenId, amount: int)
    requires amount > 0
    ensures exists events: seq<LiquidityEvent> ::
              && NonNegativeAmounts(events) && DistinctKeys(events) && t in Reduce(events)
              && Reduce(events)[t].liquidity == amount && !Reduce(events)[t].isActive
  {
    var e := LiquidityEvent(Increase, 1, 0, 0, None, Some(t), None, None, None, Some(amount), Some(0), Some(0));
    var out := e.(eventType := Decrease, logIndex := 1);
    var again := e.(logIndex := 2);
    var events := [e, out, again];
    assert Sort(ChainLeq, events) == events by { SortOfSorted(ChainLeq, events); }
    assert events[..2] == [e, out];
    FoldPair(e, out);
    assert Fold(map[], events) == Absorb(Fold(map[], [e, out]), again);
    assert t in Reduce(events) && Reduce(events)[t].liquidity == amount && !Reduce(events)[t].isActive;
  }

  /**
   * It fails the other way too: a transfer flags whatever it moves as active, a position with
   * nothing left in it included.
   */
  lemma {:induction false} EmptiedThenTransferredIsActive(t: TokenId, amount: int, to: Address)
    requires amount > 0
    ensures exists events: seq<LiquidityEvent> ::
              && NonNegativeAmounts(events) && DistinctKeys(events) && t in Reduce(events)
              && Reduce(events)[t].liquidity == 0 && Reduce(events)[t].isActive
  {
    var e := LiquidityEvent(Increase, 1, 0, 0, None, Some(t), None, None, None, Some(amount), Some(0), Some(0));
    var out := e.(eventType := Decrease, logIndex := 1);
    var moved := LiquidityEvent(Transfer, 1, 2, 0, None, Some(t), Some(to), None, None, None, None, None);
    var events := [e, out, moved];
    assert Sort(ChainLeq, events) == events by { SortOfSorted(ChainLeq, events); }
    assert events[..2] == [e, out];
    FoldPair(e, out);
    assert Fold(map[], events) == Absorb(Fold(map[], [e, out]), moved);
    assert t in Reduce(events) && Reduce(events)[t].liquidity == 0 && Reduce(events)[t].isActive;
  }

  /** What set the flag last: nothing yet, a transfer, or an accepted decrease leaving `left`. */
  datatype Setter = Unset | ByTransfer(hasRecipient: bool) | ByDecrease(left: int)

  function LastSetter(events: seq<LiquidityEvent>): Setter {
    if events == [] then Unset
    else
      var front, e := events[..|events| - 1], events[|events| - 1];
      if e.eventType == Transfer then ByTransfer(e.ownerAddress.Some?)
      else if Fits(front, e) then ByDecrease(Balance(Liquidity, events))
      else LastSetter(front)
  }

  /** Liquidity added since the flag was set last. */
  function AddedSince(events: seq<LiquidityEvent>): int {
    if events == [] then 0
    else
      var front, e := events[..|events| - 1], events[|events| - 1];
      if e.eventType == Transfer || Fits(front, e) then 0
      else AddedSince(front) + DeltaIf(Increase, Liquidity)(e)
  }

  /** The flag is the last setter's word, and a decrease's remainder is only ever added to. */
  lemma {:induction false} SetterExplains(events: seq<LiquidityEvent>)
    ensures var setter := LastSetter(events);
            && ActiveFlag(events) == (match setter
                                      case Unset => true
                                      case ByTransfer(hasRecipient) => hasRecipient
                                      case ByDecrease(left) => left > 0)
            && (setter.ByDecrease? ==> Balance(Liquidity, events) == setter.left + AddedSince(events))
    ensures NonNegativeAmounts(events) ==>
              AddedSince(events) >= 0 && (LastSetter(events).ByDecrease? ==> LastSetter(events).left >= 0)
  {
    if NonNegativeAmounts(events) { BalancesNonNegative(events); }
    if events != [] {
      var front, e := events[..|events| - 1], events[|events| - 1];
      assert events == front + [e] && e in events;
      SetterExplains(front);
      BalanceStep(Liquidity, front, e);
    }
  }

  /**
   * The logs whose flag tells whether there is liquidity: after a decrease, it must have left
   * some or nothing been added since; otherwise the position must hold liquidity, or have gone
   * to nobody holding none.
   */
  predicate FlagTellsLiquidity(log: seq<LiquidityEvent>) {
    match LastSetter(log)
    case ByDecrease(left) => left > 0 || AddedSince(log) == 0
    case ByTransfer(hasRecipient) => hasRecipient == (Balance(Liquidity, log) > 0)
    case Unset => Balance(Liquidity, log) > 0
  }

  /** Exactly when `isActive` means "liquidity is positive". */
  lemma {:induction false} ActiveIffLiquidity(events: seq<LiquidityEvent>, t: TokenId)
    requires t in Reduce(events) && NonNegativeAmounts(events)
    ensures var s := Reduce(events)[t];
            s.isActive == (s.liquidity > 0) <==> FlagTellsLiquidity(TokenLog(events, t))
  {
    var log := TokenLog(events, t);
    Accounting(events, t);
    forall e | e in log ensures e in events {
      FilterMembers(OfToken(t), Sort(ChainLeq, events), e);
      SortMembers(ChainLeq, events, e);
    }
    BalancesNonNegative(log);
    SetterExplains(log);
  }
}
