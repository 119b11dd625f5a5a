/**
 * Opening prices: exact integer square root, decimal price to sqrtPriceX96, and the
 * verifier's decoding of sqrtPriceX96 back to an 18-decimal price.
 */
module PriceMath {
  const Q96: nat := 0x1_0000_0000_0000_0000_0000_0000
  const MAX_UINT160: nat := 0xFFFF_FFFF_FFFF_FFFF_FFFF_FFFF_FFFF_FFFF_FFFF_FFFF
  const E9: nat := 1_000_000_000
  const E18: nat := 1_000_000_000_000_000_000

  /** `r` is the floor of the square root of `n`. */
  ghost predicate IsSqrt(n: nat, r: nat) {
    r * r <= n < (r + 1) * (r + 1)
  }

  lemma SquareMonotone(a: nat, b: nat)
    requires a <= b
    ensures a * a <= b * b
  {
    assert b * b - a * a == (b - a) * (b + a);
  }

  lemma SqrtUnique(n: nat, a: nat, b: nat)
    requires IsSqrt(n, a) && IsSqrt(n, b)
    ensures a == b
  {
    if a < b { SquareMonotone(a + 1, b); }
    if b < a { SquareMonotone(b + 1, a); }
  }

  /** Four times a product is at most the square of the sum. */
  lemma ProductBelowSquare(a: int, b: int)
    ensures 4 * (a * b) <= (a + b) * (a + b)
  {
    assert (a - b) * (a - b) >= 0;
    assert (a + b) * (a + b) - 4 * (a * b) == (a - b) * (a - b);
  }

  lemma HalvedSquare(sum: nat, t: nat)
    requires sum <= 2 * t
    ensures sum * sum <= 4 * (t * t)
  {
    SquareMonotone(sum, 2 * t);
    assert (2 * t) * (2 * t) == 4 * (t * t);
  }

  lemma BelowNextMultiple(n: nat, r: nat)
    requires r > 0
    ensures n < r * (n / r + 1)
  {
    assert n == r * (n / r) + n % r;
  }

  /** A Newton step from a positive guess never falls below the root. */
  lemma NewtonStaysAbove(n: nat, r: nat)
    requires r > 0
    ensures var next := (r + n / r) / 2; n < (next + 1) * (next + 1)
  {
    var q := n / r;
    BelowNextMultiple(n, r);
    ProductBelowSquare(r, q + 1);
    HalvedSquare(r + q + 1, (r + q) / 2 + 1);
  }

  /** A guess whose Newton step does not shrink it is at or below the root. */
  lemma NewtonFixpoint(n: nat, r: nat)
    requires r > 0 && (r + n / r) / 2 >= r
    ensures r * r <= n
  {
    var q := n / r;
    assert q >= r;
    assert n == r * q + n % r;
    assert r * q >= r * r by { assert r * (q - r) >= 0; }
  }

  /** Newton's iteration, started from the value itself, ends at the exact floor square root. */
  method IntegerSqrt(value: nat) returns (result: nat)
    ensures IsSqrt(value, result)
  {
    result := value;
    var next: nat := (result + 1) / 2;
    FirstGuess(value);
    while next < result
      invariant value < (result + 1) * (result + 1)
      invariant value < (next + 1) * (next + 1)
      invariant value > 0 ==> result > 0 && next == (result + value / result) / 2
      invariant value == 0 ==> result == 0
      decreases result
    {
      result := next;
      NewtonPositive(value, result);
      NewtonStaysAbove(value, result);
      next := (result + value / result) / 2;
    }
    if value > 0 {
      NewtonFixpoint(value, result);
    }
  }

  lemma NewtonPositive(value: nat, next: nat)
    requires value > 0 && value < (next + 1) * (next + 1)
    ensures next > 0
  {}

  lemma FirstGuess(value: nat)
    ensures value < (value + 1) * (value + 1)
    ensures var next := (value + 1) / 2; value < (next + 1) * (next + 1)
    ensures value > 0 ==> value / value == 1
  {
    if value > 0 {
      assert value / value == 1;
      NewtonStaysAbove(value, value);
    }
  }

  /** The root as a function; the method above is shown to compute it. */
  function Isqrt(n: nat): (r: nat)
    ensures IsSqrt(n, r)
  {
    if n == 0 then 0
    else
      var r := Isqrt(n - 1);
      if (r + 1) * (r + 1) <= n then (SqrtStep(n, r); r + 1) else r
  }

  lemma SqrtStep(n: nat, r: nat)
    requires n > 0 && IsSqrt(n - 1, r) && (r + 1) * (r + 1) <= n
    ensures IsSqrt(n, r + 1)
  {}

  // ─── sqrtPriceX96 and back ────────────────────────────────────────────────

  /** Encoding of an 18-decimal price. */
  function SqrtPriceX96(scaledPrice: nat): nat {
    Isqrt(scaledPrice) * Q96 / E9
  }

  /** The verifier's spot price from sqrtPriceX96. */
  function SpotPriceX18(sqrtPriceX96: nat): nat {
    (sqrtPriceX96 * sqrtPriceX96 / Q96) * E18 / Q96
  }

  /** The encoding is the root of the price in Q96 over 10^9, rounded down. */
  lemma EncodingIsFloor(scaledPrice: nat)
    ensures var x := SqrtPriceX96(scaledPrice);
            x * 1_000_000_000 <= Isqrt(scaledPrice) * 0x1_0000_0000_0000_0000_0000_0000 < (x + 1) * 1_000_000_000
  {
    EncodeBounds(Isqrt(scaledPrice));
  }

  /** The decoding squares, drops 96 bits, scales to 18 decimals and drops 96 bits, rounding down both times. */
  lemma DecodingIsFloors(sqrtPriceX96: nat) returns (priceX96: nat)
    ensures priceX96 * 0x1_0000_0000_0000_0000_0000_0000 <= sqrtPriceX96 * sqrtPriceX96
            < (priceX96 + 1) * 0x1_0000_0000_0000_0000_0000_0000
    ensures var p := SpotPriceX18(sqrtPriceX96);
            p * 0x1_0000_0000_0000_0000_0000_0000 <= priceX96 * 1_000_000_000_000_000_000
            < (p + 1) * 0x1_0000_0000_0000_0000_0000_0000
  {
    priceX96 := sqrtPriceX96 * sqrtPriceX96 / Q96;
    DivBounds(sqrtPriceX96 * sqrtPriceX96, Q96);
    DivBounds(priceX96 * E18, Q96);
  }

  lemma DivBounds(a: nat, d: nat)
    requires d > 0
    ensures (a / d) * d <= a < (a / d) * d + d
  {}

  lemma MulMonotone(a: nat, b: nat, d: nat)
    requires a <= b
    ensures a * d <= b * d
  {
    assert (b - a) * d >= 0;
  }

  lemma CancelFactor(a: nat, b: nat, d: nat)
    requires a * d < (b + 1) * d
    ensures a <= b
  {
    if a > b { MulMonotone(b + 1, a, d); }
  }

  /** With x = floor(r·2^96/10^9): 10^9·x lies in (r·2^96 - 10^9, r·2^96]. */
  lemma EncodeBounds(r: nat)
    ensures var x := r * Q96 / E9; E9 * x <= r * Q96 < E9 * x + E9
  {
    DivBounds(r * Q96, E9);
  }

  lemma DecodeUpper(r: nat, x: nat)
    requires E9 * x <= r * Q96
    ensures SpotPriceX18(x) <= r * r
  {
    SquareMonotone(E9 * x, r * Q96);
    var p := x * x / Q96;
    var s := p * E18 / Q96;
    assert p * Q96 <= x * x;
    assert s * Q96 <= p * E18;
    assert (E9 * x) * (E9 * x) == E18 * (x * x);
    assert (r * Q96) * (r * Q96) == (r * r) * (Q96 * Q96);
    assert s * (Q96 * Q96) <= p * E18 * Q96;
    assert p * E18 * Q96 == E18 * (p * Q96);
    assert s * (Q96 * Q96) <= (r * r) * (Q96 * Q96);
    assert (r * r) * (Q96 * Q96) < (r * r + 1) * (Q96 * Q96);
    CancelFactor(s, r * r, Q96 * Q96);
  }

  lemma DecodeLower(r: nat, x: nat)
    requires r * Q96 < E9 * x + E9
    ensures SpotPriceX18(x) + r + 1 >= r * r
  {
    var p := x * x / Q96;
    var s := p * E18 / Q96;
    assert x * x < p * Q96 + Q96;
    assert p * E18 < s * Q96 + Q96;
    if r > 0 {
      LowerSquare(r, x);
      assert E18 * (x * x) < E18 * (p * Q96 + Q96);
      assert E18 * (p * Q96 + Q96) == (p * E18) * Q96 + E18 * Q96;
      assert (p * E18) * Q96 + E18 * Q96 < (s * Q96 + Q96) * Q96 + E18 * Q96;
      assert (s * Q96 + Q96) * Q96 == (s + 1) * (Q96 * Q96);
      Combine(r, s);
    }
  }

  /** (r·2^96 - 10^9)^2 is at least r^2·2^192 - 2r·10^9·2^96. */
  lemma LowerSquare(r: nat, x: nat)
    requires r > 0 && r * Q96 < E9 * x + E9
    ensures E18 * (x * x) >= (r * r) * (Q96 * Q96) - 2 * r * (E9 * Q96)
  {
    var a, b := E9 * x, r * Q96 - E9;
    assert r * Q96 >= Q96 by { assert (r - 1) * Q96 >= 0; }
    assert a > b >= 0;
    SquareMonotone(b, a);
    assert a * a == E18 * (x * x);
    var c := r * Q96;
    assert b * b == c * c - 2 * (c * E9) + E18 by {
      assert (c - E9) * (c - E9) == c * c - 2 * (c * E9) + E9 * E9;
    }
    assert c * c == (r * r) * (Q96 * Q96);
    assert c * E9 == r * (E9 * Q96);
  }

  lemma Combine(r: nat, s: nat)
    requires r > 0
    requires (r * r) * (Q96 * Q96) - 2 * r * (E9 * Q96) < (s + 1) * (Q96 * Q96) + E18 * Q96
    ensures s + r + 1 >= r * r
  {
    assert 2 * (E9 * Q96) + E18 * Q96 <= Q96 * Q96;
    assert 2 * r * (E9 * Q96) + E18 * Q96 <= r * (2 * (E9 * Q96) + E18 * Q96) by {
      assert (r - 1) * (E18 * Q96) >= 0;
    }
    assert r * (2 * (E9 * Q96) + E18 * Q96) <= r * (Q96 * Q96) by {
      assert r * (Q96 * Q96 - (2 * (E9 * Q96) + E18 * Q96)) >= 0;
    }
    assert (r * r) * (Q96 * Q96) < (s + 1 + r) * (Q96 * Q96);
    CancelFactor(r * r, s + r, Q96 * Q96);
  }

  /** Encoding a price and reading it back never exceeds it and loses at most 3·isqrt(S) + 2. */
  lemma PriceRoundTrip(scaledPrice: nat)
    ensures var back := SpotPriceX18(SqrtPriceX96(scaledPrice));
            back <= scaledPrice <= back + 3 * Isqrt(scaledPrice) + 2
  {
    var r := Isqrt(scaledPrice);
    EncodeBounds(r);
    DecodeUpper(r, SqrtPriceX96(scaledPrice));
    DecodeLower(r, SqrtPriceX96(scaledPrice));
    assert (r + 1) * (r + 1) == r * r + 2 * r + 1;
  }
}
