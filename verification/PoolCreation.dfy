/**
 * The pool-creation form: which inputs it accepts, and the opening price the transaction
 * intent carries for them. Price text is taken as already trimmed; whether the host's
 * floating-point reading of it is positive is an input.
 */
module PoolCreation {
  import opened Common
  import opened DecimalText
  import opened PriceMath

  const MAX_V4_FEE: nat := 1_000_000
  const MAX_V4_TICK_SPACING: nat := 32_767
  const PRICE_DECIMALS: nat := 18

  datatype PriceKind = DecimalPrice | RawSqrtPrice

  datatype Field = Token0 | Token1 | Pair | FeeField | TickSpacingField | PriceField | DeadlineField

  type Positive = n: nat | n > 0 witness 1

  /** Form values after parsing; `None` where the source's field parser fails. */
  datatype Form = Form(
    token0: Option<nat>, token1: Option<nat>, fee: Option<Positive>, tickSpacing: Option<Positive>,
    kind: PriceKind, price: string, readsPositive: bool, deadline: Option<int>)

  datatype Request = Request(
    token0: nat, token1: nat, fee: Positive, tickSpacing: Positive, kind: PriceKind, price: string, deadline: int)

  predicate IsPositiveDecimal(s: string, readsPositive: bool) {
    IsDecimal(s) && readsPositive
  }

  predicate IsPositiveInteger(s: string) {
    s != "" && IsDigits(s) && Value(s) > 0
  }

  /** decimalToSqrtPriceX96 as a function of the text. */
  function EncodedPrice(s: string): nat
    requires IsDecimal(s)
  {
    SqrtPriceX96(Scaled(s, PRICE_DECIMALS))
  }

  method DecimalToSqrtPriceX96(s: string) returns (x: nat)
    requires IsDecimal(s)
    ensures x == EncodedPrice(s)
  {
    var scaled := Scaled(s, PRICE_DECIMALS);
    var root := IntegerSqrt(scaled);
    SqrtUnique(scaled, root, Isqrt(scaled));
    x := root * Q96 / E9;
  }

  /** The length guard spares the root of absurdly long inputs. */
  method IsDecimalSqrtPriceWithinUint160(s: string) returns (ok: bool)
    requires IsDecimal(s)
    ensures ok <==> GuardAccepts(s)
  {
    if |Whole(s)| > 40 {
      return false;
    }
    var x := DecimalToSqrtPriceX96(s);
    ok := x <= MAX_UINT160;
  }

  // ─── The length guard against the 160-bit range ───────────────────────────

  const TWO_64: nat := 0x1_0000_0000_0000_0000
  const TWO_128: nat := 0x1_0000_0000_0000_0000_0000_0000_0000_0000

  /** Roots from here on encode to more than 160 bits. */
  const ROOT_LIMIT: nat := TWO_64 * E9

  lemma RootLimitSquared()
    ensures ROOT_LIMIT * ROOT_LIMIT == TWO_128 * E18
    ensures ROOT_LIMIT * Q96 == (MAX_UINT160 + 1) * E9
  {}

  lemma RootBelowIff(n: nat, limit: nat)
    ensures Isqrt(n) < limit <==> n < limit * limit
  {
    var r := Isqrt(n);
    if r < limit {
      SquareMonotone(r + 1, limit);
    } else {
      SquareMonotone(limit, r);
    }
  }

  lemma EncodedFitsIff(r: nat)
    ensures r * Q96 / E9 <= MAX_UINT160 <==> r < ROOT_LIMIT
  {
    RootLimitSquared();
    EncodeBounds(r);
    if r < ROOT_LIMIT {
      MulMonotone(r + 1, ROOT_LIMIT, Q96);
    } else {
      MulMonotone(ROOT_LIMIT, r, Q96);
    }
  }

  /** A scaled price can be encoded in 160 bits exactly below 2^128 at 18 decimals. */
  lemma FitsUint160Iff(scaled: nat)
    ensures SqrtPriceX96(scaled) <= MAX_UINT160 <==> scaled < TWO_128 * E18
  {
    RootLimitSquared();
    RootBelowIff(scaled, ROOT_LIMIT);
    EncodedFitsIff(Isqrt(scaled));
  }

  /** Whole and fractional part against a limit on whole units. */
  lemma BelowWholeLimit(whole: nat, rest: nat, unit: nat, limit: nat)
    requires rest < unit
    ensures whole * unit + rest < limit * unit <==> whole < limit
  {
    if whole < limit {
      MulMonotone(whole + 1, limit, unit);
      assert (whole + 1) * unit == whole * unit + unit;
    } else {
      MulMonotone(limit, whole, unit);
    }
  }

  /** The fraction never matters: only the whole part decides whether a price fits. */
  lemma {:induction false} PriceFitsIff(s: string)
    requires IsDecimal(s)
    ensures IsDigits(Whole(s)) && (EncodedPrice(s) <= MAX_UINT160 <==> Value(Whole(s)) < TWO_128)
  {
    FractionOfDecimal(s);
    PadEndDigits(Fraction(s), PRICE_DECIMALS);
    var fraction := PadEnd(Fraction(s), PRICE_DECIMALS)[..PRICE_DECIMALS];
    assert forall c :: c in fraction ==> c in PadEnd(Fraction(s), PRICE_DECIMALS);
    ValueBelow(fraction);
    PowersOfTen();
    BelowWholeLimit(Value(Whole(s)), Value(fraction), E18, TWO_128);
    FitsUint160Iff(Scaled(s, PRICE_DECIMALS));
  }

  /** What the guard answers. */
  predicate GuardAccepts(s: string)
    requires IsDecimal(s)
  {
    |Whole(s)| <= 40 && EncodedPrice(s) <= MAX_UINT160
  }

  lemma {:induction false} PowersOfTen()
    ensures Pow10(18) == E18 && TWO_128 <= Pow10(40)
  {
    PowSum(8, 10);
    PowSum(10, 10);
    PowSum(20, 20);
  }

  /**
   * The guard departs from the 160-bit range exactly for prices below 2^128 whose whole part
   * is written with more than forty characters, which takes a leading zero.
   */
  lemma {:induction false} GuardDiffersIff(s: string)
    requires IsDecimal(s)
    ensures IsDigits(Whole(s))
            && (GuardAccepts(s) != (EncodedPrice(s) <= MAX_UINT160)
                <==> |Whole(s)| > 40 && Value(Whole(s)) < TWO_128)
            && (|Whole(s)| > 40 && Value(Whole(s)) < TWO_128 ==> Whole(s)[0] == '0')
  {
    FractionOfDecimal(s);
    PriceFitsIff(s);
    if |Whole(s)| > 40 && Whole(s)[0] != '0' {
      LengthBound(Whole(s));
      Pow10Monotone(40, |Whole(s)| - 1);
      PowersOfTen();
    }
  }

  /** The price 1, written with forty leading zeros. */
  const LongOne: string := Zeros(40) + "1"

  lemma {:induction false} LongOneIsOne()
    ensures IsDigits(LongOne) && |LongOne| == 41 && Value(LongOne) == 1
  {
    ValueZeros(40);
    assert LongOne[..40] == Zeros(40);
  }

  /** Leading zeros alone make the guard refuse a positive price that fits and can be encoded. */
  lemma {:induction false} LeadingZerosRefused()
    ensures IsPositiveDecimal(LongOne, true) && !GuardAccepts(LongOne)
    ensures 0 < EncodedPrice(LongOne) <= MAX_UINT160
  {
    LongOneIsOne();
    PlainDigits(LongOne);
    PriceFitsIff(LongOne);
    PowersOfTen();
    WholeUnitsEncode(Scaled(LongOne, PRICE_DECIMALS));
  }

  lemma WholeUnitsEncode(scaled: nat)
    requires scaled >= E18
    ensures SqrtPriceX96(scaled) > 0
  {
    RootBelowIff(scaled, E9);
    MulMonotone(E9, Isqrt(scaled), Q96);
    EncodeBounds(Isqrt(scaled));
  }

  /** The price a form stands for, when its text is acceptable. */
  ghost predicate PriceAcceptable(form: Form) {
    && IsPositiveDecimal(form.price, form.readsPositive)
    && match form.kind
       case RawSqrtPrice => IsPositiveInteger(form.price) && Value(form.price) <= MAX_UINT160
       case DecimalPrice => GuardAccepts(form.price) && 0 < EncodedPrice(form.price)
  }

  /**
   * Which texts name a price the form takes: for a price, a decimal reading as positive, below
   * 2^128, written with at most forty whole digits and not zero at eighteen decimals; for a raw
   * root, plain digits, positive and below 2^160.
   */
  lemma {:induction false} PriceAcceptableIff(form: Form)
    ensures form.kind == DecimalPrice ==>
              (PriceAcceptable(form) <==>
                 && IsDecimal(form.price) && form.readsPositive
                 && IsDigits(Whole(form.price)) && |Whole(form.price)| <= 40
                 && Value(Whole(form.price)) < 0x1_0000_0000_0000_0000_0000_0000_0000_0000
                 && Scaled(form.price, 18) > 0)
    ensures form.kind == RawSqrtPrice ==>
              (PriceAcceptable(form) <==>
                 && form.price != "" && IsDigits(form.price) && form.readsPositive
                 && 0 < Value(form.price) < 0x1_0000_0000_0000_0000_0000_0000_0000_0000_0000_0000)
  {
    if IsDecimal(form.price) {
      FractionOfDecimal(form.price);
      PriceFitsIff(form.price);
      EncodedPositiveIff(Scaled(form.price, 18));
    }
    if form.price != "" && IsDigits(form.price) {
      PlainDigits(form.price);
    }
  }

  lemma EncodedPositiveIff(scaled: nat)
    ensures SqrtPriceX96(scaled) > 0 <==> scaled > 0
  {
    RootBelowIff(scaled, 1);
    EncodeBounds(Isqrt(scaled));
    if Isqrt(scaled) >= 1 {
      MulMonotone(1, Isqrt(scaled), Q96);
    }
  }

  ghost predicate Acceptable(form: Form, now: int) {
    && form.token0.Some? && form.token1.Some? && form.token0.value < form.token1.value
    && form.fee.Some? && form.fee.value <= MAX_V4_FEE
    && form.tickSpacing.Some? && form.tickSpacing.value <= MAX_V4_TICK_SPACING
    && form.deadline.Some? && form.deadline.value > now
    && PriceAcceptable(form)
  }

  method PriceErrors(form: Form) returns (bad: bool)
    ensures bad <==> !PriceAcceptable(form)
  {
    bad := false;
    var decimal := IsPositiveDecimal(form.price, form.readsPositive);
    if !decimal { bad := true; }
    if form.kind == RawSqrtPrice && !IsPositiveInteger(form.price) { bad := true; }
    if form.kind == RawSqrtPrice && IsPositiveInteger(form.price) && Value(form.price) > MAX_UINT160 { bad := true; }
    if form.kind == DecimalPrice && decimal {
      var within := IsDecimalSqrtPriceWithinUint160(form.price);
      if !within { bad := true; }
      var x := DecimalToSqrtPriceX96(form.price);
      if x == 0 { bad := true; }
    }
  }

  /** Collects one flag per offending field; a request is returned exactly for acceptable forms. */
  method ValidatePoolCreationForm(form: Form, now: int) returns (errors: set<Field>, request: Option<Request>)
    ensures Token0 in errors <==> form.token0.None?
    ensures Token1 in errors <==> form.token1.None?
    ensures Pair in errors <==> form.token0.Some? && form.token1.Some? && !(form.token0.value < form.token1.value)
    ensures FeeField in errors <==> form.fee.None? || form.fee.value > 1_000_000
    ensures TickSpacingField in errors <==> form.tickSpacing.None? || form.tickSpacing.value > 32_767
    ensures PriceField in errors <==> !PriceAcceptable(form)
    ensures DeadlineField in errors <==> form.deadline.None? || form.deadline.value <= now
    ensures request.Some? <==> errors == {}
    ensures request.Some? <==> Acceptable(form, now)
    ensures request.Some? ==>
              request.value == Request(form.token0.value, form.token1.value, form.fee.value, form.tickSpacing.value,
                                       form.kind, form.price, form.deadline.value)
  {
    errors := {};
    if form.token0.None? { errors := errors + {Token0}; }
    if form.token1.None? { errors := errors + {Token1}; }
    if form.token0.Some? && form.token1.Some? && form.token0 == form.token1 { errors := errors + {Pair}; }
    if form.token0.Some? && form.token1.Some? && form.token0.value > form.token1.value { errors := errors + {Pair}; }
    if form.fee.None? || form.fee.value > MAX_V4_FEE { errors := errors + {FeeField}; }
    if form.tickSpacing.None? || form.tickSpacing.value > MAX_V4_TICK_SPACING { errors := errors + {TickSpacingField}; }
    var bad := PriceErrors(form);
    if bad { errors := errors + {PriceField}; }
    if form.deadline.None? || form.deadline.value <= now { errors := errors + {DeadlineField}; }
    if errors != {} || form.token0.None? || form.token1.None? || form.fee.None? || form.tickSpacing.None? || form.deadline.None? {
      if form.token0.None? { assert Token0 in errors; }
      request := None;
    } else {
      request := Some(Request(form.token0.value, form.token1.value, form.fee.value, form.tickSpacing.value,
                              form.kind, form.price, form.deadline.value));
    }
  }

  /** The sqrtPriceX96 argument of the transaction intent. */
  function IntentPrice(request: Request): nat
    requires IsDecimal(request.price) && (request.kind == RawSqrtPrice ==> IsDigits(request.price))
  {
    if request.kind == RawSqrtPrice then Value(request.price) else EncodedPrice(request.price)
  }

  /**
   * An accepted form opens the pool at a non-zero 160-bit price, and a decimal price is what
   * the verifier later reads back, up to the encoding error.
   */
  lemma AcceptedIntent(form: Form, now: int, request: Request)
    requires Acceptable(form, now)
    requires request == Request(form.token0.value, form.token1.value, form.fee.value, form.tickSpacing.value,
                                form.kind, form.price, form.deadline.value)
    ensures 0 < IntentPrice(request) <= MAX_UINT160
    ensures form.kind == RawSqrtPrice ==> IntentPrice(request) == Value(form.price)
    ensures form.kind == DecimalPrice ==>
              var entered := Scaled(form.price, PRICE_DECIMALS);
              SpotPriceX18(IntentPrice(request)) <= entered <= SpotPriceX18(IntentPrice(request)) + 3 * Isqrt(entered) + 2
  {
    if form.kind == DecimalPrice {
      PriceRoundTrip(Scaled(form.price, PRICE_DECIMALS));
    }
  }
}
