/**
 * The verified tick window: the reader probes aligned ticks around the active one, and the
 * quote engine rejects any swap that ends outside the probed range. The on-chain tick table
 * is a total function; an uninitialised tick reads as (0, 0).
 */
module TickWindow {
  import opened Common
  import opened Sorting

  datatype TickInfo = TickInfo(gross: nat, net: int)

  type TickTable = int -> TickInfo

  datatype InitializedTick = InitializedTick(tick: int, liquidityGross: nat, liquidityNet: int)

  datatype PoolState = PoolState(tick: int, liquidity: int, initializedTicks: seq<InitializedTick>, window: Option<(int, int)>)

  const MAX_SCAN_EACH_SIDE := 512

  /** On chain only multiples of the spacing are ever initialised. */
  ghost predicate Aligned(table: TickTable, spacing: int)
    requires spacing > 0
  {
    forall t :: table(t) != TickInfo(0, 0) ==> t % spacing == 0
  }

  /** A configured width from 1 to 512 is used as it is; any other becomes the nearer end. */
  function ScanWidth(configured: int): (scan: int)
    ensures 1 <= configured <= 512 ==> scan == configured
    ensures configured < 1 ==> scan == 1
    ensures configured > 512 ==> scan == 512
  {
    Min(Max(configured, 1), MAX_SCAN_EACH_SIDE)
  }

  /** The `m`-th multiple of the spacing. */
  function Boundary(spacing: int, m: int): int {
    m * spacing
  }

  /** Index of the boundary at or below the active tick; `/` rounds down for a positive spacing. */
  function AnchorIndex(tick: int, spacing: int): int
    requires spacing > 0
  {
    tick / spacing
  }

  lemma AnchorHolds(tick: int, spacing: int)
    requires spacing > 0
    ensures Boundary(spacing, AnchorIndex(tick, spacing)) <= tick < Boundary(spacing, AnchorIndex(tick, spacing)) + spacing
  {}

  lemma AlignedIsBoundary(t: int, spacing: int)
    requires spacing > 0 && t % spacing == 0
    ensures t == Boundary(spacing, t / spacing)
  {}

  lemma Shift(spacing: int, m: int, k: int)
    ensures Boundary(spacing, m + k) == Boundary(spacing, m) + k * spacing
    ensures Boundary(spacing, m - k) == Boundary(spacing, m) - k * spacing
  {}

  lemma BoundaryOrder(spacing: int, m: int, n: int)
    requires spacing > 0 && m < n
    ensures Boundary(spacing, m) + spacing <= Boundary(spacing, n)
  {
    assert (n - m - 1) * spacing >= 0;
  }

  predicate TickLeq(a: InitializedTick, b: InitializedTick) {
    a.tick <= b.tick
  }

  predicate HasNet(t: InitializedTick) {
    t.liquidityNet != 0
  }

  function Probe(table: TickTable, t: int): InitializedTick {
    InitializedTick(t, table(t).gross, table(t).net)
  }

  ghost predicate Ascending(ticks: seq<InitializedTick>) {
    forall i, j :: 0 <= i < j < |ticks| ==> ticks[i].tick < ticks[j].tick
  }

  lemma AscendingIsSorted(ticks: seq<InitializedTick>)
    requires Ascending(ticks)
    ensures Sorted(TickLeq, ticks) && NoTies(TickLeq, ticks)
  {}

  /** `ticks` lists, in strictly ascending order, the ticks of lo..hi whose net liquidity is not zero. */
  ghost predicate ExactIndex(table: TickTable, lo: int, hi: int, ticks: seq<InitializedTick>) {
    && Ascending(ticks)
    && (forall p :: p in ticks ==>
          && lo <= p.tick <= hi && p.liquidityNet != 0
          && p.liquidityGross == table(p.tick).gross && p.liquidityNet == table(p.tick).net)
    && (forall t :: lo <= t <= hi && table(t).net != 0 ==> InitializedTick(t, table(t).gross, table(t).net) in ticks)
  }

  /** `cs` holds each boundary with index lo..hi exactly once. */
  ghost predicate Candidates(spacing: int, lo: int, hi: int, cs: seq<int>) {
    && (forall c :: c in cs ==> IsBoundary(spacing, lo, hi, c))
    && (forall m :: lo <= m <= hi ==> Boundary(spacing, m) in cs)
    && (forall i, j :: 0 <= i < j < |cs| ==> cs[i] != cs[j])
  }

  ghost predicate IsBoundary(spacing: int, lo: int, hi: int, c: int) {
    exists m :: lo <= m <= hi && c == Boundary(spacing, m)
  }

  lemma OutsideIsNew(spacing: int, lo: int, hi: int, c: int, n: int)
    requires spacing > 0 && IsBoundary(spacing, lo, hi, c) && (n < lo || hi < n)
    ensures c != Boundary(spacing, n)
  {
    var m :| lo <= m <= hi && c == Boundary(spacing, m);
    if n < m { BoundaryOrder(spacing, n, m); } else { BoundaryOrder(spacing, m, n); }
  }

  lemma OneMorePair(spacing: int, lo: int, hi: int, cs: seq<int>)
    requires spacing > 0 && lo <= hi && Candidates(spacing, lo, hi, cs)
    ensures Candidates(spacing, lo - 1, hi + 1, cs + [Boundary(spacing, lo - 1), Boundary(spacing, hi + 1)])
  {
    var x, y := Boundary(spacing, lo - 1), Boundary(spacing, hi + 1);
    var ds := cs + [x, y];
    forall c | c in ds ensures IsBoundary(spacing, lo - 1, hi + 1, c) {
      if c in cs {
        var m :| lo <= m <= hi && c == Boundary(spacing, m);
      }
    }
    forall i | 0 <= i < |cs| ensures cs[i] != x && cs[i] != y {
      OutsideIsNew(spacing, lo, hi, cs[i], lo - 1);
      OutsideIsNew(spacing, lo, hi, cs[i], hi + 1);
    }
    BoundaryOrder(spacing, lo - 1, hi + 1);
    forall m | lo - 1 <= m <= hi + 1 ensures Boundary(spacing, m) in ds {
      assert ds[|cs|] == x && ds[|cs| + 1] == y;
      if lo <= m <= hi { assert Boundary(spacing, m) in cs; }
    }
  }

  function ProbeAll(table: TickTable, cs: seq<int>): (r: seq<InitializedTick>)
    ensures |r| == |cs| && forall i :: 0 <= i < |cs| ==> r[i] == Probe(table, cs[i])
  {
    seq(|cs|, i requires 0 <= i < |cs| => Probe(table, cs[i]))
  }

  lemma KeptTicks(table: TickTable, cs: seq<int>, p: InitializedTick)
    ensures p in Sort(TickLeq, Filter(HasNet, ProbeAll(table, cs)))
        <==> p.tick in cs && p == Probe(table, p.tick) && p.liquidityNet != 0
  {
    var probes := ProbeAll(table, cs);
    SortMembers(TickLeq, Filter(HasNet, probes), p);
    FilterMembers(HasNet, probes, p);
    if p.tick in cs {
      var j :| 0 <= j < |cs| && cs[j] == p.tick;
      assert probes[j] == Probe(table, p.tick);
    }
  }

  lemma KeptAscending(table: TickTable, cs: seq<int>)
    requires forall i, j :: 0 <= i < j < |cs| ==> cs[i] != cs[j]
    ensures Ascending(Sort(TickLeq, Filter(HasNet, ProbeAll(table, cs))))
  {
    var probes := ProbeAll(table, cs);
    assert NoTies(TickLeq, probes);
    FilterNoTies(probes);
    SortSorts(TickLeq, Filter(HasNet, probes));
    SortNoTies(TickLeq, Filter(HasNet, probes));
  }

  lemma ScanIsExact(table: TickTable, spacing: int, lo: int, hi: int, cs: seq<int>)
    requires spacing > 0 && lo <= hi && Aligned(table, spacing) && Candidates(spacing, lo, hi, cs)
    ensures ExactIndex(table, Boundary(spacing, lo), Boundary(spacing, hi),
                       Sort(TickLeq, Filter(HasNet, ProbeAll(table, cs))))
  {
    var ticks := Sort(TickLeq, Filter(HasNet, ProbeAll(table, cs)));
    KeptAscending(table, cs);
    forall p | p in ticks
      ensures Boundary(spacing, lo) <= p.tick <= Boundary(spacing, hi) && p == Probe(table, p.tick) && p.liquidityNet != 0
    {
      KeptTicks(table, cs, p);
      var m :| lo <= m <= hi && p.tick == Boundary(spacing, m);
      if lo < m { BoundaryOrder(spacing, lo, m); }
      if m < hi { BoundaryOrder(spacing, m, hi); }
    }
    forall t | Boundary(spacing, lo) <= t <= Boundary(spacing, hi) && table(t).net != 0
      ensures Probe(table, t) in ticks
    {
      KeptTicks(table, cs, Probe(table, t));
      AlignedIsBoundary(t, spacing);
      var m := t / spacing;
      if m < lo { BoundaryOrder(spacing, m, lo); }
      if hi < m { BoundaryOrder(spacing, hi, m); }
    }
  }

  lemma {:induction false} FilterNoTies(s: seq<InitializedTick>)
    requires NoTies(TickLeq, s)
    ensures NoTies(TickLeq, Filter(HasNet, s))
  {
    if s != [] {
      FilterNoTies(s[1..]);
      forall p | p in Filter(HasNet, s[1..]) ensures !(TickLeq(s[0], p) && TickLeq(p, s[0])) {
        FilterMembers(HasNet, s[1..], p);
        var k :| 0 <= k < |s| - 1 && s[1..][k] == p;
        assert s[k + 1] == p;
      }
    }
  }

  /** The boundary at or below the active tick, and `scan` boundaries on each side. */
  method CandidateTicks(tick: int, spacing: int, scan: nat) returns (candidates: seq<int>)
    requires spacing > 0
    ensures Candidates(spacing, AnchorIndex(tick, spacing) - scan, AnchorIndex(tick, spacing) + scan, candidates)
  {
    var anchor := (tick / spacing) * spacing;
    ghost var m := AnchorIndex(tick, spacing);
    candidates := [anchor];
    assert anchor == Boundary(spacing, m);
    for k := 1 to scan + 1
      invariant Candidates(spacing, m - (k - 1), m + (k - 1), candidates)
    {
      OneMorePair(spacing, m - (k - 1), m + (k - 1), candidates);
      Shift(spacing, m, k);
      candidates := candidates + [anchor - k * spacing, anchor + k * spacing];
    }
  }

  /** The window's ends as the reader computes them. */
  function WindowOf(tick: int, spacing: int, scan: int): (int, int)
    requires spacing > 0
  {
    ((tick / spacing) * spacing - scan * spacing, (tick / spacing) * spacing + scan * spacing)
  }

  lemma WindowBoundaries(tick: int, spacing: int, scan: int)
    requires spacing > 0 && scan >= 1
    ensures WindowOf(tick, spacing, scan)
         == (Boundary(spacing, AnchorIndex(tick, spacing) - scan), Boundary(spacing, AnchorIndex(tick, spacing) + scan))
    ensures WindowOf(tick, spacing, scan).0 <= tick <= WindowOf(tick, spacing, scan).1
  {
    var m := AnchorIndex(tick, spacing);
    Shift(spacing, m, scan);
    AnchorHolds(tick, spacing);
    BoundaryOrder(spacing, m, m + scan);
    BoundaryOrder(spacing, m - scan, m);
  }

  lemma WindowIsExact(table: TickTable, spacing: int, lo: int, hi: int, window: (int, int), candidates: seq<int>)
    requires spacing > 0 && lo <= hi && Aligned(table, spacing) && Candidates(spacing, lo, hi, candidates)
    requires window == (Boundary(spacing, lo), Boundary(spacing, hi))
    ensures ExactIndex(table, window.0, window.1, Sort(TickLeq, Filter(HasNet, ProbeAll(table, candidates))))
  {
    ScanIsExact(table, spacing, lo, hi, candidates);
  }

  /** Reads the window. The result lists exactly the ticks of the window that change liquidity. */
  method GetPoolState(table: TickTable, tick: int, liquidity: int, spacing: int, tickScanEachSide: int)
    returns (state: PoolState)
    requires spacing > 0 && Aligned(table, spacing)
    ensures state.tick == tick && state.liquidity == liquidity
    ensures state.window == Some(WindowOf(tick, spacing, ScanWidth(tickScanEachSide)))
    ensures ExactIndex(table, state.window.value.0, state.window.value.1, state.initializedTicks)
    ensures state.window.value.0 <= tick <= state.window.value.1
  {
    var scan := ScanWidth(tickScanEachSide);
    var candidates := CandidateTicks(tick, spacing, scan);
    var ticks := Sort(TickLeq, Filter(HasNet, ProbeAll(table, candidates)));
    var window := WindowOf(tick, spacing, scan);
    WindowBoundaries(tick, spacing, scan);
    WindowIsExact(table, spacing, AnchorIndex(tick, spacing) - scan, AnchorIndex(tick, spacing) + scan, window, candidates);
    state := PoolState(tick, liquidity, ticks, Some(window));
  }

  // ─── The quote ────────────────────────────────────────────────────────────

  datatype QuoteError = InvalidAmount | NoLiquidity | SimulationFailed | PriceOutOfRange

  datatype Quote = Quote(amountOut: int, crossedTicks: nat, tickAfter: int)

  predicate Crossed(t: InitializedTick, zeroForOne: bool, tick: int, tickAfter: int) {
    if zeroForOne then t.tick <= tick && t.tick > tickAfter else t.tick > tick && t.tick <= tickAfter
  }

  function CrossedBy(zeroForOne: bool, tick: int, tickAfter: int): InitializedTick -> bool {
    (t: InitializedTick) => Crossed(t, zeroForOne, tick, tickAfter)
  }

  function CrossedTicks(ticks: seq<InitializedTick>, zeroForOne: bool, tick: int, tickAfter: int): seq<InitializedTick> {
    Filter(CrossedBy(zeroForOne, tick, tickAfter), ticks)
  }

  /** `simulated` is the pool library's answer: output and final tick, or a failure. */
  function SimulateExactInputSwap(state: PoolState, zeroForOne: bool, amountIn: int, simulated: Option<(int, int)>)
    : Result<Quote, QuoteError>
  {
    if amountIn <= 0 then Err(InvalidAmount)
    else if state.liquidity <= 0 then Err(NoLiquidity)
    else if simulated.None? then Err(SimulationFailed)
    else
      var (amountOut, tickAfter) := simulated.value;
      if state.window.Some? && (tickAfter < state.window.value.0 || tickAfter > state.window.value.1)
      then Err(PriceOutOfRange)
      else Ok(Quote(amountOut, |CrossedTicks(state.initializedTicks, zeroForOne, state.tick, tickAfter)|, tickAfter))
  }

  /** Which inputs end in which error, in the order the engine looks at them. */
  lemma QuoteErrors(state: PoolState, zeroForOne: bool, amountIn: int, simulated: Option<(int, int)>)
    ensures var r := SimulateExactInputSwap(state, zeroForOne, amountIn, simulated);
            && (r == Err(InvalidAmount) <==> amountIn <= 0)
            && (r == Err(NoLiquidity) <==> amountIn > 0 && state.liquidity <= 0)
            && (r == Err(SimulationFailed) <==> amountIn > 0 && state.liquidity > 0 && simulated.None?)
            && (r == Err(PriceOutOfRange) <==>
                  && amountIn > 0 && state.liquidity > 0 && simulated.Some? && state.window.Some?
                  && !(state.window.value.0 <= simulated.value.1 <= state.window.value.1))
            && (r.Ok? ==> r.value.amountOut == simulated.value.0 && r.value.tickAfter == simulated.value.1)
  {}

  /** Over the whole on-chain table: liquidity-changing ticks in (lo, hi]. */
  function CountChanging(table: TickTable, lo: int, hi: int): nat
    decreases hi - lo
  {
    if hi <= lo then 0 else CountChanging(table, lo, hi - 1) + (if table(hi).net != 0 then 1 else 0)
  }

  /** Over the whole on-chain table: initialised ticks in (lo, hi], changing liquidity or not. */
  function CountInitialized(table: TickTable, lo: int, hi: int): nat
    decreases hi - lo
  {
    if hi <= lo then 0 else CountInitialized(table, lo, hi - 1) + (if table(hi).gross > 0 then 1 else 0)
  }

  function SumNet(table: TickTable, lo: int, hi: int): int
    decreases hi - lo
  {
    if hi <= lo then 0 else SumNet(table, lo, hi - 1) + table(hi).net
  }

  const NetOf: InitializedTick -> int := (t: InitializedTick) => t.liquidityNet

  function ListNet(ticks: seq<InitializedTick>): int {
    SumOf(NetOf, ticks)
  }

  /** Over the whole on-chain table: the liquidity-changing ticks of (lo, hi], ascending. */
  function ChangingTicks(table: TickTable, lo: int, hi: int): seq<InitializedTick>
    decreases hi - lo
  {
    if hi <= lo then []
    else ChangingTicks(table, lo, hi - 1) + (if table(hi).net != 0 then [Probe(table, hi)] else [])
  }

  lemma {:induction false} ChangingTicksExact(table: TickTable, lo: int, hi: int)
    ensures var c := ChangingTicks(table, lo, hi);
            && Ascending(c)
            && (forall p :: p in c <==> lo < p.tick <= hi && p == Probe(table, p.tick) && p.liquidityNet != 0)
    decreases hi - lo
  {
    if lo < hi {
      ChangingTicksExact(table, lo, hi - 1);
      var c := ChangingTicks(table, lo, hi - 1);
      assert forall i :: 0 <= i < |c| ==> c[i] in c;
    }
  }

  lemma {:induction false} ChangingTicksTotals(table: TickTable, lo: int, hi: int)
    ensures |ChangingTicks(table, lo, hi)| == CountChanging(table, lo, hi)
    ensures ListNet(ChangingTicks(table, lo, hi)) == SumNet(table, lo, hi)
    decreases hi - lo
  {
    if lo < hi {
      ChangingTicksTotals(table, lo, hi - 1);
      var c, p := ChangingTicks(table, lo, hi - 1), Probe(table, hi);
      assert c + [] == c;
      assert (c + [p])[..|c + [p]| - 1] == c;
      assert ListNet(c + [p]) == ListNet(c) + NetOf(p);
      assert NetOf(p) == table(hi).net;
    }
  }

  lemma {:induction false} FilterAscends(p: InitializedTick -> bool, s: seq<InitializedTick>)
    requires Ascending(s)
    ensures Ascending(Filter(p, s))
  {
    if s != [] {
      FilterAscends(p, s[1..]);
      var f := Filter(p, s[1..]);
      forall i | 0 <= i < |f| ensures s[0].tick < f[i].tick {
        FilterMembers(p, s[1..], f[i]);
        var k :| 0 <= k < |s| - 1 && s[1..][k] == f[i];
        assert s[k + 1] == f[i];
      }
      if p(s[0]) { assert Filter(p, s) == [s[0]] + f; }
    }
  }

  function Low(zeroForOne: bool, tick: int, tickAfter: int): int {
    if zeroForOne then tickAfter else tick
  }

  function High(zeroForOne: bool, tick: int, tickAfter: int): int {
    if zeroForOne then tick else tickAfter
  }

  lemma CrossedAreAll(table: TickTable, min: int, max: int, ticks: seq<InitializedTick>, zeroForOne: bool, tick: int, tickAfter: int)
    requires ExactIndex(table, min, max, ticks) && min <= tick <= max && min <= tickAfter <= max
    ensures CrossedTicks(ticks, zeroForOne, tick, tickAfter)
         == ChangingTicks(table, Low(zeroForOne, tick, tickAfter), High(zeroForOne, tick, tickAfter))
  {
    var lo, hi := Low(zeroForOne, tick, tickAfter), High(zeroForOne, tick, tickAfter);
    var p := CrossedBy(zeroForOne, tick, tickAfter);
    var a, b := CrossedTicks(ticks, zeroForOne, tick, tickAfter), ChangingTicks(table, lo, hi);
    FilterAscends(p, ticks);
    ChangingTicksExact(table, lo, hi);
    forall x ensures x in a <==> x in b {
      FilterMembers(p, ticks, x);
    }
    AscendingIsSorted(a);
    AscendingIsSorted(b);
    SortedUnique(TickLeq, a, b);
  }

  /**
   * Over a scanned snapshot a quote is accepted exactly when amount and liquidity are positive,
   * the simulation answered and its final tick lies in the window. It then carries the
   * simulation's output and final tick, and the crossed ticks it counts are the
   * liquidity-changing ticks of the unbounded on-chain table from the active tick to that
   * final tick: same number, same summed net liquidity.
   */
  lemma AcceptedQuoteMatchesChain(
    table: TickTable, state: PoolState, zeroForOne: bool, amountIn: int, simulated: Option<(int, int)>)
    requires state.window.Some? && ExactIndex(table, state.window.value.0, state.window.value.1, state.initializedTicks)
    requires state.window.value.0 <= state.tick <= state.window.value.1
    ensures var r := SimulateExactInputSwap(state, zeroForOne, amountIn, simulated);
            && (r.Ok? <==>
                  && amountIn > 0 && state.liquidity > 0 && simulated.Some?
                  && state.window.value.0 <= simulated.value.1 <= state.window.value.1)
            && (r.Ok? ==>
                  var (out, end) := simulated.value;
                  && r.value.amountOut == out && r.value.tickAfter == end
                  && r.value.crossedTicks == (if zeroForOne then CountChanging(table, end, state.tick)
                                              else CountChanging(table, state.tick, end))
                  && ListNet(CrossedTicks(state.initializedTicks, zeroForOne, state.tick, end))
                     == if zeroForOne then SumNet(table, end, state.tick) else SumNet(table, state.tick, end))
  {
    if SimulateExactInputSwap(state, zeroForOne, amountIn, simulated).Ok? {
      var end := simulated.value.1;
      var (min, max) := state.window.value;
      CrossedAreAll(table, min, max, state.initializedTicks, zeroForOne, state.tick, end);
      ChangingTicksTotals(table, Low(zeroForOne, state.tick, end), High(zeroForOne, state.tick, end));
    }
  }

  /** The chain keeps gross liquidity positive wherever net liquidity is not zero. */
  ghost predicate GrossCoversNet(table: TickTable) {
    forall t :: table(t).net != 0 ==> table(t).gross > 0
  }

  /**
   * The count is of initialised ticks exactly when none of those passed has cancelling
   * positions: the scan drops an initialised tick whose net liquidity is zero.
   */
  lemma {:induction false} CountsInitializedIff(table: TickTable, lo: int, hi: int)
    requires GrossCoversNet(table)
    ensures CountChanging(table, lo, hi) <= CountInitialized(table, lo, hi)
    ensures CountChanging(table, lo, hi) == CountInitialized(table, lo, hi)
        <==> forall t :: lo < t <= hi && table(t).gross > 0 ==> table(t).net != 0
    decreases hi - lo
  {
    if lo < hi {
      CountsInitializedIff(table, lo, hi - 1);
    }
  }

  /** What a position of `amount` over [lower, upper) adds to the tick table. */
  function WithPosition(table: TickTable, lower: int, upper: int, amount: nat): TickTable {
    (t: int) =>
      TickInfo(table(t).gross + (if t == lower || t == upper then amount else 0),
               table(t).net + (if t == lower then amount else 0) - (if t == upper then amount else 0))
  }

  const NoPositions: TickTable := (t: int) => TickInfo(0, 0)

  /** One position ends where an equal one begins: the shared tick is initialised and uncounted. */
  lemma {:induction false} CancellingPositionsUncounted(spacing: int, amount: nat)
    requires spacing > 0 && amount > 0
    ensures var table := WithPosition(WithPosition(NoPositions, -spacing, 0, amount), 0, spacing, amount);
            && Aligned(table, spacing) && GrossCoversNet(table)
            && table(0).gross == 2 * amount && table(0).net == 0
            && CountChanging(table, -1, 0) == 0 && CountInitialized(table, -1, 0) == 1
  {
    var table := WithPosition(WithPosition(NoPositions, -spacing, 0, amount), 0, spacing, amount);
    assert -spacing % spacing == 0 by { assert -spacing == (-1) * spacing; }
    assert CountChanging(table, -1, -1) == 0 && CountInitialized(table, -1, -1) == 0;
  }
}
