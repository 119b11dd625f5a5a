/** The legacy constant-product quote, with its integer floors. */
module ConstantProduct {
  const BPS: nat := 10_000

  function Quote(amountIn: int, reserveIn: int, reserveOut: int, feeBps: int): int
    requires 0 <= feeBps <= BPS
  {
    if amountIn <= 0 then 0
    else if reserveIn <= 0 || reserveOut <= 0 then 0
    else
      var amountInWithFee := amountIn * (BPS - feeBps);
      amountInWithFee * reserveOut / (reserveIn * BPS + amountInWithFee)
  }

  lemma FloorDiv(n: nat, d: nat, q: int)
    requires d > 0
    ensures q <= n / d <==> q * d <= n
  {
    var f := n / d;
    assert n == f * d + n % d;
    if q <= f { assert (f - q) * d >= 0; }
    if q > f { assert (q - f - 1) * d >= 0; }
  }

  /** The quote is the largest output the fee-reduced input can pay for. */
  lemma QuoteIsLargest(a: int, x: int, y: int, f: int, q: int)
    requires 0 <= f <= 10_000 && a > 0 && x > 0 && y > 0
    ensures var w := a * (10_000 - f);
            q <= Quote(a, x, y, f) <==> q * (x * 10_000 + w) <= w * y
  {
    var w := a * (BPS - f);
    assert w >= 0 && w * y >= 0;
    FloorDiv(w * y, x * BPS + w, q);
  }

  /** There is nothing to quote without an input or with an empty side. */
  lemma NothingToQuote(a: int, x: int, y: int, f: int)
    requires 0 <= f <= 10_000 && (a <= 0 || x <= 0 || y <= 0)
    ensures Quote(a, x, y, f) == 0
  {}

  /** Output is never negative and never empties the pool. */
  lemma OutputBelowReserve(a: int, x: int, y: int, f: int)
    requires 0 <= f <= BPS && y > 0
    ensures 0 <= Quote(a, x, y, f) < y
  {
    if a > 0 && x > 0 {
      var w := a * (BPS - f);
      assert w >= 0 && w * y >= 0;
      QuoteIsLargest(a, x, y, f, 0);
      QuoteIsLargest(a, x, y, f, y);
      assert y * (x * BPS + w) == y * (x * BPS) + w * y;
      assert y * (x * BPS) > 0;
    }
  }

  lemma MulMonotone(a: int, b: int, c: int)
    requires a <= b && c >= 0
    ensures a * c <= b * c
  {
    assert (b - a) * c >= 0;
  }

  /** A larger input never buys less. */
  lemma OutputGrows(a: int, b: int, x: int, y: int, f: int)
    requires 0 <= f <= BPS && a <= b
    ensures Quote(a, x, y, f) <= Quote(b, x, y, f)
  {
    if b > 0 && x > 0 && y > 0 {
      OutputBelowReserve(b, x, y, f);
      if a > 0 {
        var q, v, w := Quote(a, x, y, f), a * (BPS - f), b * (BPS - f);
        OutputBelowReserve(a, x, y, f);
        QuoteIsLargest(a, x, y, f, q);
        MulMonotone(a, b, BPS - f);
        MulMonotone(v, w, y - q);
        assert q * (x * BPS + v) == q * (x * BPS) + v * q && v * (y - q) == v * y - v * q;
        assert q * (x * BPS + w) == q * (x * BPS) + w * q && w * (y - q) == w * y - w * q;
        QuoteIsLargest(b, x, y, f, q);
      }
    }
  }

  /** The reserve product never falls: the floor and the fee stay in the pool. */
  lemma ProductNeverFalls(a: int, x: int, y: int, f: int)
    requires 0 <= f <= BPS && a >= 0 && x > 0 && y > 0
    ensures (x + a) * (y - Quote(a, x, y, f)) >= x * y
  {
    if a == 0 {
      assert Quote(a, x, y, f) == 0;
    } else {
      var q, g := Quote(a, x, y, f), BPS - f;
      var w := a * g;
      OutputBelowReserve(a, x, y, f);
      QuoteIsLargest(a, x, y, f, q);
      assert q * (x * BPS + w) == (q * x) * BPS + w * q && w * (y - q) == w * y - w * q;
      assert (q * x) * BPS <= w * (y - q);
      assert w * (y - q) <= (a * (y - q)) * BPS by {
        assert w * (y - q) == (a * (y - q)) * g;
        assert a * (y - q) >= 0;
        MulMonotone(g, BPS, a * (y - q));
      }
      assert q * x <= a * (y - q);
      assert (x + a) * (y - q) == x * y - q * x + a * (y - q);
    }
  }

  /** The arithmetic of a split: q and r are quoted on growing, then d is the whole quote's divisor. */
  lemma SplitArithmetic(q: int, r: int, v: int, w: int, y: int, d: int, e: int, d2: int)
    requires q * e <= v * y && d == e + w
    requires r >= 0 && d <= d2 && r * d2 <= w * (y - q)
    ensures (q + r) * d <= (v + w) * y
  {
    MulMonotone(d, d2, r);
    assert r * d <= r * d2;
    assert (q + r) * d == q * e + q * w + r * d;
    assert w * (y - q) == w * y - q * w;
    assert (v + w) * y == v * y + w * y;
  }

  /** Two successive swaps never pay more than one swap of their sum. */
  lemma SplitNeverPaysMore(a: int, b: int, x: int, y: int, f: int)
    requires 0 <= f <= BPS && a >= 0 && b >= 0 && x > 0 && y > 0
    ensures var q := Quote(a, x, y, f);
            q + Quote(b, x + a, y - q, f) <= Quote(a + b, x, y, f)
  {
    var q := Quote(a, x, y, f);
    OutputBelowReserve(a, x, y, f);
    if a > 0 && b > 0 {
      var g := BPS - f;
      var v, w, d := a * g, b * g, x * BPS + (a + b) * g;
      var r := Quote(b, x + a, y - q, f);
      OutputBelowReserve(b, x + a, y - q, f);
      QuoteIsLargest(a, x, y, f, q);
      QuoteIsLargest(b, x + a, y - q, f, r);
      assert (a + b) * g == v + w;
      assert v <= a * BPS by { MulMonotone(g, BPS, a); }
      SplitArithmetic(q, r, v, w, y, d, x * BPS + v, (x + a) * BPS + w);
      QuoteIsLargest(a + b, x, y, f, q + r);
    }
  }

  /** Total output of a list of successive swaps. */
  function SwapAll(pieces: seq<nat>, x: int, y: int, f: int): int
    requires 0 <= f <= BPS
  {
    if pieces == [] then 0
    else
      var q := Quote(pieces[0], x, y, f);
      q + SwapAll(pieces[1..], x + pieces[0], y - q, f)
  }

  function Total(pieces: seq<nat>): nat {
    if pieces == [] then 0 else pieces[0] + Total(pieces[1..])
  }

  /** Splitting an order into any number of pieces never beats sending it whole. */
  lemma {:induction false} SplittingNeverPays(pieces: seq<nat>, x: int, y: int, f: int)
    requires 0 <= f <= BPS && x > 0 && y > 0
    ensures SwapAll(pieces, x, y, f) <= Quote(Total(pieces), x, y, f)
  {
    if pieces != [] {
      var q := Quote(pieces[0], x, y, f);
      OutputBelowReserve(pieces[0], x, y, f);
      SplittingNeverPays(pieces[1..], x + pieces[0], y - q, f);
      SplitNeverPaysMore(pieces[0], Total(pieces[1..]), x, y, f);
    }
  }

  lemma KeptProductKeepsReserve(x: int, left: int, y: int)
    requires y > 0 && y * left >= x * y
    ensures left >= x
  {
    if left < x { MulMonotone(left + 1, x, y); }
  }

  /** Swapping and swapping the proceeds back never yields more than was put in. */
  lemma NoProfitThereAndBack(a: int, x: int, y: int, f: int)
    requires 0 <= f <= BPS && a >= 0 && x > 0 && y > 0
    ensures Quote(Quote(a, x, y, f), y - Quote(a, x, y, f), x + a, f) <= a
  {
    var q := Quote(a, x, y, f);
    OutputBelowReserve(a, x, y, f);
    ProductNeverFalls(a, x, y, f);
    BackIsBounded(q, y - q, x + a, f, x, y);
  }

  lemma BackIsBounded(q: int, y': int, x': int, f: int, x: int, y: int)
    requires 0 <= f <= BPS && q >= 0 && y' > 0 && x' > 0 && y > 0
    requires y' + q == y && x' * y' >= x * y
    ensures Quote(q, y', x', f) <= x' - x
  {
    var back := Quote(q, y', x', f);
    ProductNeverFalls(q, y', x', f);
    KeptProductKeepsReserve(x, x' - back, y);
  }
}
