/**
 * How much of a single-sided deposit to swap: a twelve-round bisection over a quoting
 * service and the pool library's liquidity maths, both given as functions.
 */
module SwapSplit {
  import opened Common

  datatype SwapQuote = SwapQuote(amountOut: nat, minAmountOut: nat)

  /** Quote for an input, and the amounts a position of (amount0, amount1) would really take. */
  datatype Market = Market(quote: int -> SwapQuote, mint: (int, int) -> (nat, nat))

  datatype Input = Input(zeroForOne: bool, amountIn: int, market: Market)

  datatype Split = Split(swapAmountIn: int, quote: SwapQuote, error: nat)

  datatype SplitError = TooSmall

  function Remaining(input: Input, swap: int): int {
    input.amountIn - swap
  }

  /** How much of the remaining input the position takes after swapping `swap`. */
  function Consumed(input: Input, swap: int): nat {
    var rest, out := Remaining(input, swap), input.market.quote(swap).amountOut;
    if input.zeroForOne then input.market.mint(rest, out).0 else input.market.mint(out, rest).1
  }

  /** Not all input is used: swap more. */
  predicate SwapMore(input: Input, swap: int) {
    Consumed(input, swap) < Remaining(input, swap)
  }

  /** A bracket with the probes made so far, oldest first. */
  datatype Bracket = Bracket(low: int, high: int, probes: seq<int>)

  function Width(b: Bracket): int {
    b.high - b.low + 1
  }

  function Round(input: Input, b: Bracket): Bracket {
    if b.low > b.high then b
    else
      var mid := (b.low + b.high) / 2;
      if SwapMore(input, mid) then Bracket(mid + 1, b.high, b.probes + [mid])
      else Bracket(b.low, mid - 1, b.probes + [mid])
  }

  function Rounds(input: Input, n: nat): Bracket {
    if n == 0 then Bracket(1, input.amountIn - 1, []) else Round(input, Rounds(input, n - 1))
  }

  const MAX_ROUNDS: nat := 12

  /** What swapping `swap` leaves the position to take: its amounts of token 0 and token 1. */
  function Minted(input: Input, swap: int): (nat, nat) {
    var rest, out := input.amountIn - swap, input.market.quote(swap).amountOut;
    if input.zeroForOne then input.market.mint(rest, out) else input.market.mint(out, rest)
  }

  /** The part of the input left over, or wanted on top, after swapping `swap`. */
  function Gap(input: Input, swap: int): nat {
    var rest := input.amountIn - swap;
    var taken := if input.zeroForOne then Minted(input, swap).0 else Minted(input, swap).1;
    if taken <= rest then rest - taken else taken - rest
  }

  /** The earliest probe of least gap, with its own quote. */
  ghost predicate BestOf(input: Input, best: Split, probes: seq<int>) {
    && best.swapAmountIn in probes && best.quote == input.market.quote(best.swapAmountIn)
    && best.error == Gap(input, best.swapAmountIn)
    && (forall p :: p in probes ==> best.error <= Gap(input, p))
    && exists i :: 0 <= i < |probes| && probes[i] == best.swapAmountIn && forall j :: 0 <= j < i ==> best.error < Gap(input, probes[j])
  }

  /** The search swaps more exactly when the position takes less of the input than remains. */
  lemma SwapMoreIff(input: Input, swap: int)
    ensures SwapMore(input, swap) <==>
              if input.zeroForOne then Minted(input, swap).0 < input.amountIn - swap
              else Minted(input, swap).1 < input.amountIn - swap
  {}

  /** Keeping the better of the best so far and the round's probe keeps the best. */
  lemma BetterIsBest(input: Input, best: Option<Split>, b: Bracket, probe: Split)
    requires best.Some? ==> BestOf(input, best.value, b.probes)
    requires best.None? ==> b.probes == []
    requires b.low <= b.high && BestOf(input, probe, [(b.low + b.high) / 2])
    ensures BestOf(input, if best.None? || probe.error < best.value.error then probe else best.value,
                   Round(input, b).probes)
  {
    var done, more := b.probes, b.probes + [(b.low + b.high) / 2];
    assert Round(input, b).probes == more;
    var kept := if best.None? || probe.error < best.value.error then probe else best.value;
    if best.Some? && kept == best.value {
      var i :| 0 <= i < |done| && done[i] == kept.swapAmountIn && forall j :: 0 <= j < i ==> kept.error < Gap(input, done[j]);
      assert more[i] == kept.swapAmountIn;
    } else {
      assert more[|done|] == kept.swapAmountIn;
      forall j | 0 <= j < |done| ensures kept.error < Gap(input, more[j]) {
        assert more[j] in done;
      }
    }
  }

  /** A probe of the middle, kept if better, keeps the best and points the way of the round. */
  lemma ProbeIsRound(input: Input, best: Option<Split>, b: Bracket, probe: Split)
    requires best.Some? ==> BestOf(input, best.value, b.probes)
    requires best.None? ==> b.probes == []
    requires b.low <= b.high && probe.swapAmountIn == (b.low + b.high) / 2
    requires probe.quote == input.market.quote(probe.swapAmountIn) && probe.error == Gap(input, probe.swapAmountIn)
    ensures BestOf(input, if best.None? || probe.error < best.value.error then probe else best.value,
                   Round(input, b).probes)
    ensures var (mid, next) := (probe.swapAmountIn, Round(input, b));
            if (if input.zeroForOne then Minted(input, mid).0 else Minted(input, mid).1) < input.amountIn - mid
            then next.low == mid + 1 && next.high == b.high else next.low == b.low && next.high == mid - 1
  {
    var mid := probe.swapAmountIn;
    SwapMoreIff(input, mid);
    assert [mid][0] == mid;
    BetterIsBest(input, best, b, probe);
  }

  lemma {:induction false} ProbesInRange(input: Input, n: nat)
    requires input.amountIn >= 1
    ensures var b := Rounds(input, n);
            && 1 <= b.low <= b.high + 1 <= input.amountIn
            && forall p :: p in b.probes ==> 1 <= p < input.amountIn
  {
    if n > 0 {
      ProbesInRange(input, n - 1);
    }
  }

  /** Once the bracket is empty further rounds change nothing. */
  lemma {:induction false} EmptyStays(input: Input, n: nat, m: nat)
    requires n <= m && Rounds(input, n).low > Rounds(input, n).high
    ensures Rounds(input, m) == Rounds(input, n)
  {
    if n < m {
      EmptyStays(input, n, m - 1);
    }
  }

  /** One probe: how far the position's use of the input misses what remains, and which way. */
  method Probe(input: Input, swapAmountIn: int) returns (split: Split, more: bool)
    ensures split == Split(swapAmountIn, input.market.quote(swapAmountIn), Gap(input, swapAmountIn))
    ensures more <==> if input.zeroForOne then Minted(input, swapAmountIn).0 < input.amountIn - swapAmountIn
                      else Minted(input, swapAmountIn).1 < input.amountIn - swapAmountIn
  {
    var quote := input.market.quote(swapAmountIn);
    var remainingInput := input.amountIn - swapAmountIn;
    var amount0 := if input.zeroForOne then remainingInput else quote.amountOut;
    var amount1 := if input.zeroForOne then quote.amountOut else remainingInput;
    var minted := input.market.mint(amount0, amount1);
    var consumed := if input.zeroForOne then minted.0 else minted.1;
    var error: nat := if consumed > remainingInput then consumed - remainingInput else remainingInput - consumed;
    split := Split(swapAmountIn, quote, error);
    more := consumed < remainingInput;
  }

  /** The best so far, when there is one, is the best of the probes made. */
  ghost predicate BestSoFar(input: Input, best: Option<Split>, b: Bracket) {
    if best.Some? then BestOf(input, best.value, b.probes) else b.probes == []
  }

  /** One round: probe the middle, keep the better split, keep one half. */
  method SearchRound(input: Input, low: int, high: int, best: Option<Split>, ghost b: Bracket)
    returns (low': int, high': int, best': Split)
    requires low <= high && b.low == low && b.high == high && BestSoFar(input, best, b)
    ensures low' == Round(input, b).low && high' == Round(input, b).high
    ensures BestSoFar(input, Some(best'), Round(input, b))
  {
    var swapAmountIn := (low + high) / 2;
    var split, more := Probe(input, swapAmountIn);
    ProbeIsRound(input, best, b, split);
    best' := if best.None? || split.error < best.value.error then split else best.value;
    if more {
      low', high' := swapAmountIn + 1, high;
    } else {
      low', high' := low, swapAmountIn - 1;
    }
  }

  /**
   * The search: the returned split carries its own quote and gap, has the least gap among the
   * probes of twelve rounds and is the first to have it, and swaps some but not all of the input.
   */
  method FindV4SwapAmount(input: Input) returns (r: Result<Split, SplitError>)
    ensures r.Err? <==> input.amountIn < 3
    ensures r.Ok? ==> BestOf(input, r.value, Rounds(input, 12).probes)
    ensures r.Ok? ==> 1 <= r.value.swapAmountIn < input.amountIn
  {
    if input.amountIn < 3 {
      return Err(TooSmall);
    }
    var low, high := 1, input.amountIn - 1;
    var best: Option<Split> := None;
    var iteration := 0;
    while iteration < 12 && low <= high
      invariant 0 <= iteration <= 12 && (best.None? ==> iteration == 0)
      invariant Rounds(input, iteration).low == low && Rounds(input, iteration).high == high
      invariant BestSoFar(input, best, Rounds(input, iteration))
    {
      var next;
      low, high, next := SearchRound(input, low, high, best, Rounds(input, iteration));
      best := Some(next);
      iteration := iteration + 1;
    }
    if iteration < 12 {
      EmptyStays(input, iteration, MAX_ROUNDS);
    }
    ProbesInRange(input, MAX_ROUNDS);
    r := Ok(best.value);
  }

  // ─── What the bisection guarantees ────────────────────────────────────────

  /**
   * The search from its first bracket on: it probes the middle, then keeps the half above when
   * the position takes less than remains of the input token, else the half below.
   */
  lemma SearchSteps(input: Input, n: nat)
    ensures Rounds(input, 0) == Bracket(1, input.amountIn - 1, [])
    ensures var (b, next) := (Rounds(input, n), Rounds(input, n + 1));
            if b.low > b.high then next == b
            else
              exists mid :: (mid == b.low + (b.high - b.low) / 2) && next.probes == b.probes + [mid]
                && var taken := if input.zeroForOne then Minted(input, mid).0 else Minted(input, mid).1;
                   if taken < input.amountIn - mid then (next.low, next.high) == (mid + 1, b.high)
                   else (next.low, next.high) == (b.low, mid - 1)
  {
    var b := Rounds(input, n);
    if b.low <= b.high {
      var mid := (b.low + b.high) / 2;
      SwapMoreIff(input, mid);
      assert mid == b.low + (b.high - b.low) / 2;
      assert Rounds(input, n + 1).probes == b.probes + [mid];
    }
  }

  /** Every round at least halves the bracket. */
  lemma RoundHalves(input: Input, b: Bracket)
    requires b.low <= b.high + 1
    ensures 0 <= Width(Round(input, b)) <= Width(b) / 2
  {}

  function Pow2(n: nat): nat {
    if n == 0 then 1 else 2 * Pow2(n - 1)
  }

  /** Halving a width while doubling its weight does not raise the product. */
  lemma HalvingKeepsBound(w: int, v: int, p: nat, bound: int)
    requires 2 * w <= v && v * p <= bound
    ensures w * (2 * p) <= bound
  {
    assert (v - 2 * w) * p >= 0;
  }

  /** After n rounds at most one part in 2^n of the range is left. */
  lemma {:induction false} RoundsShrink(input: Input, n: nat)
    requires input.amountIn >= 1
    ensures Width(Rounds(input, n)) * Pow2(n) <= input.amountIn - 1
  {
    if n == 0 {
      assert Width(Rounds(input, 0)) == input.amountIn - 1;
    } else {
      RoundsShrink(input, n - 1);
      ProbesInRange(input, n - 1);
      RoundHalves(input, Rounds(input, n - 1));
      HalvingKeepsBound(Width(Rounds(input, n)), Width(Rounds(input, n - 1)), Pow2(n - 1), input.amountIn - 1);
    }
  }

  /** Below `crossover` more must be swapped, from it on not. */
  ghost predicate Crossover(input: Input, crossover: int) {
    && 1 <= crossover <= input.amountIn
    && forall s :: 1 <= s < input.amountIn ==> (SwapMore(input, s) <==> s < crossover)
  }

  /** The crossover is inside the bracket, and the bracket's outer neighbours have been probed. */
  ghost predicate Bracketed(input: Input, crossover: int, b: Bracket) {
    && 1 <= b.low <= crossover <= b.high + 1 <= input.amountIn
    && (b.low > 1 ==> b.low - 1 in b.probes)
    && (b.high + 1 < input.amountIn ==> b.high + 1 in b.probes)
  }

  lemma RoundKeepsBracketed(input: Input, crossover: int, b: Bracket)
    requires Crossover(input, crossover) && Bracketed(input, crossover, b)
    ensures Bracketed(input, crossover, Round(input, b))
  {
    if b.low <= b.high {
      var mid := (b.low + b.high) / 2;
      assert SwapMore(input, mid) <==> mid < crossover;
    }
  }

  /** The crossover stays inside the bracket, and the bracket's outer neighbours have been probed. */
  lemma {:induction false} CrossoverStaysBracketed(input: Input, crossover: int, n: nat)
    requires Crossover(input, crossover)
    ensures Bracketed(input, crossover, Rounds(input, n))
  {
    if n > 0 {
      CrossoverStaysBracketed(input, crossover, n - 1);
      RoundKeepsBracketed(input, crossover, Rounds(input, n - 1));
    }
  }

  lemma TwelveHalvings(width: int, range: int)
    requires width * Pow2(12) <= range < 4096
    ensures width <= 0
  {
    assert Pow2(6) == 64;
    assert Pow2(12) == 4096;
  }

  /** Up to 4096 units the twelve rounds probe both neighbours of the crossover. */
  lemma NeighboursProbed(input: Input, crossover: int)
    requires Crossover(input, crossover) && input.amountIn <= 4096
    ensures var probes := Rounds(input, MAX_ROUNDS).probes;
            && (crossover > 1 ==> crossover - 1 in probes)
            && (crossover < input.amountIn ==> crossover in probes)
  {
    RoundsShrink(input, MAX_ROUNDS);
    CrossoverStaysBracketed(input, crossover, MAX_ROUNDS);
    var b := Rounds(input, MAX_ROUNDS);
    TwelveHalvings(Width(b), input.amountIn - 1);
    assert b.low == crossover && b.high == crossover - 1;
  }

  /** Swapping more never widens the gap between what is consumed and what remains. */
  ghost predicate MonotoneGap(input: Input) {
    forall s, t :: 1 <= s <= t < input.amountIn ==>
      Consumed(input, s) - Remaining(input, s) <= Consumed(input, t) - Remaining(input, t)
  }

  /** The first swap from `s` on after which nothing more need be swapped. */
  lemma {:induction false} CrossoverFrom(input: Input, s: int) returns (crossover: int)
    requires MonotoneGap(input) && 1 <= s <= input.amountIn
    requires forall t :: 1 <= t < s ==> SwapMore(input, t)
    ensures Crossover(input, crossover)
    decreases input.amountIn - s
  {
    if s == input.amountIn || !SwapMore(input, s) {
      crossover := s;
    } else {
      crossover := CrossoverFrom(input, s + 1);
    }
  }

  /**
   * When the gap is monotone and the amount at most 4096, the best probe is optimal among all
   * ways to split the input.
   */
  lemma BestIsOptimal(input: Input, best: Split, s: int)
    requires MonotoneGap(input) && 3 <= input.amountIn <= 4096
    requires BestOf(input, best, Rounds(input, MAX_ROUNDS).probes)
    requires 1 <= s < input.amountIn
    ensures best.error <= Gap(input, s)
  {
    var crossover := CrossoverFrom(input, 1);
    NeighboursProbed(input, crossover);
    if s < crossover {
      assert Consumed(input, s) - Remaining(input, s) <= Consumed(input, crossover - 1) - Remaining(input, crossover - 1);
      assert SwapMore(input, crossover - 1);
    } else {
      assert Consumed(input, crossover) - Remaining(input, crossover) <= Consumed(input, s) - Remaining(input, s);
      assert !SwapMore(input, crossover);
    }
  }
}
