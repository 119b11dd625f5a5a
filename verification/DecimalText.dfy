/** Decimal digit strings: their value, the price parser's scaling and the amount printer. */
module DecimalText {
  predicate IsDigit(c: char) { '0' <= c <= '9' }

  function Digit(c: char): nat
    requires IsDigit(c)
  {
    c as nat - '0' as nat
  }

  predicate IsDigits(s: string) {
    forall c :: c in s ==> IsDigit(c)
  }

  function Pow10(n: nat): (p: nat)
    ensures p > 0
  {
    if n == 0 then 1 else 10 * Pow10(n - 1)
  }

  /** The number a digit string denotes. */
  function Value(s: string): nat
    requires IsDigits(s)
  {
    if s == "" then 0 else
      assert s[|s| - 1] in s;
      Value(s[..|s| - 1]) * 10 + Digit(s[|s| - 1])
  }

  function Zeros(n: nat): (z: string)
    ensures |z| == n && IsDigits(z)
    ensures forall c :: c in z ==> c == '0'
  {
    if n == 0 then "" else Zeros(n - 1) + "0"
  }

  function PadStart(s: string, n: nat): string {
    if |s| >= n then s else Zeros(n - |s|) + s
  }

  function PadEnd(s: string, n: nat): string {
    if |s| >= n then s else s + Zeros(n - |s|)
  }

  function TrimZeros(s: string): string {
    if s != "" && s[|s| - 1] == '0' then TrimZeros(s[..|s| - 1]) else s
  }

  /** Position of the first dot, or the length when there is none. */
  function FirstDot(s: string): (i: nat)
    ensures i <= |s|
    ensures forall k :: 0 <= k < i ==> s[k] != '.'
    ensures i < |s| ==> s[i] == '.'
  {
    if s == "" || s[0] == '.' then 0 else 1 + FirstDot(s[1..])
  }

  function Whole(s: string): string {
    s[..FirstDot(s)]
  }

  function Fraction(s: string): string {
    if FirstDot(s) == |s| then "" else
      var rest := s[FirstDot(s) + 1..];
      rest[..FirstDot(rest)]
  }

  /** Digits, optionally followed by a dot and more digits. */
  predicate IsDecimal(s: string) {
    var i := FirstDot(s);
    && 0 < i && IsDigits(s[..i])
    && (i < |s| ==> i + 1 < |s| && IsDigits(s[i + 1..]))
  }

  lemma FractionOfDecimal(s: string)
    requires IsDecimal(s)
    ensures IsDigits(Whole(s)) && IsDigits(Fraction(s))
    ensures FirstDot(s) < |s| ==> Fraction(s) == s[FirstDot(s) + 1..]
  {
    var i := FirstDot(s);
    if i < |s| {
      var rest := s[i + 1..];
      forall k | 0 <= k < |rest| ensures rest[k] != '.' {
        assert rest[k] in rest;
      }
      assert rest[..|rest|] == rest;
    }
  }

  lemma PadEndDigits(s: string, n: nat)
    requires IsDigits(s)
    ensures IsDigits(PadEnd(s, n)) && |PadEnd(s, n)| >= n
  {}

  /** The price parser: whole part scaled up, fraction padded or cut to `decimals` digits. */
  function Scaled(s: string, decimals: nat): nat
    requires IsDecimal(s)
  {
    FractionOfDecimal(s);
    PadEndDigits(Fraction(s), decimals);
    var fraction := PadEnd(Fraction(s), decimals)[..decimals];
    assert forall c :: c in fraction ==> c in PadEnd(Fraction(s), decimals);
    Value(Whole(s)) * Pow10(decimals) + Value(fraction)
  }

  function FormatDigits(digits: string, decimals: nat): string
    requires decimals > 0
  {
    var padded := PadStart(digits, decimals + 1);
    var cut := |padded| - decimals;
    padded[..cut] + "." + AtLeastOne(TrimZeros(padded[cut..]))
  }

  function AtLeastOne(trimmed: string): string {
    if |trimmed| > 0 then trimmed else "0"
  }

  /** Prints a raw amount with `decimals` places, trailing zeros trimmed to at least one digit. */
  function FormatAmount(raw: string, decimals: nat): string {
    var negative := raw != "" && raw[0] == '-';
    var digits := if negative then raw[1..] else raw;
    (if negative then "-" else "") + (if decimals == 0 then digits else FormatDigits(digits, decimals))
  }

  lemma ScaleOneMore(a: nat, b: nat, p: nat, d: nat)
    ensures (a * p + b) * 10 + d == a * (10 * p) + (b * 10 + d)
  {}

  lemma {:induction false} ValueConcat(a: string, b: string)
    requires IsDigits(a) && IsDigits(b)
    ensures IsDigits(a + b) && Value(a + b) == Value(a) * Pow10(|b|) + Value(b)
  {
    if b == "" {
      assert a + b == a;
    } else {
      var n := |b| - 1;
      assert forall c :: c in b[..n] ==> c in b;
      ValueConcat(a, b[..n]);
      assert (a + b)[..|a + b| - 1] == a + b[..n];
      assert b[n] in b;
      assert Value(a + b) == Value(a + b[..n]) * 10 + Digit(b[n]);
      ScaleOneMore(Value(a), Value(b[..n]), Pow10(n), Digit(b[n]));
    }
  }

  lemma {:induction false} ValueZeros(n: nat)
    ensures Value(Zeros(n)) == 0
  {
    if n > 0 {
      ValueZeros(n - 1);
      assert Zeros(n)[..n - 1] == Zeros(n - 1);
    }
  }

  lemma {:induction false} PadStartKeepsValue(s: string, n: nat)
    requires IsDigits(s)
    ensures IsDigits(PadStart(s, n)) && Value(PadStart(s, n)) == Value(s)
  {
    if |s| < n {
      ValueZeros(n - |s|);
      ValueConcat(Zeros(n - |s|), s);
    }
  }

  /** Padding a trimmed fraction back gives the fraction. */
  lemma {:induction false} TrimThenPad(s: string)
    ensures |TrimZeros(s)| <= |s| && PadEnd(TrimZeros(s), |s|) == s
    ensures forall c :: c in TrimZeros(s) ==> c in s
  {
    if s != "" && s[|s| - 1] == '0' {
      var n := |s| - 1;
      TrimThenPad(s[..n]);
      var t := TrimZeros(s[..n]);
      assert s == s[..n] + "0";
      assert Zeros(n + 1 - |t|) == Zeros(n - |t|) + "0";
      assert t + Zeros(n - |t|) == s[..n];
    }
  }

  lemma FirstDotOf(a: string, b: string)
    requires IsDigits(a)
    ensures FirstDot(a + "." + b) == |a|
  {
    var s := a + "." + b;
    var i := FirstDot(s);
    assert s[|a|] == '.';
    forall k | 0 <= k < |a| ensures s[k] != '.' {
      assert s[k] == a[k] && a[k] in a;
    }
  }

  lemma {:induction false} ScaledOfParts(whole: string, shown: string, fraction: string, decimals: nat)
    requires whole != "" && shown != "" && IsDigits(whole) && IsDigits(shown) && IsDigits(fraction)
    requires |PadEnd(shown, decimals)| >= decimals && PadEnd(shown, decimals)[..decimals] == fraction
    ensures IsDecimal(whole + "." + shown)
    ensures Scaled(whole + "." + shown, decimals) == Value(whole) * Pow10(decimals) + Value(fraction)
  {
    var text := whole + "." + shown;
    FirstDotOf(whole, shown);
    assert text[..|whole|] == whole && text[|whole| + 1..] == shown;
    FractionOfDecimal(text);
  }

  lemma {:induction false} SplitPadded(raw: string, decimals: nat)
    requires IsDigits(raw)
    ensures var padded := PadStart(raw, decimals + 1);
            var cut := |padded| - decimals;
            && cut > 0 && IsDigits(padded[..cut]) && IsDigits(padded[cut..])
            && Value(padded[..cut]) * Pow10(decimals) + Value(padded[cut..]) == Value(raw)
  {
    var padded := PadStart(raw, decimals + 1);
    PadStartKeepsValue(raw, decimals + 1);
    var cut := |padded| - decimals;
    assert padded == padded[..cut] + padded[cut..];
    assert forall c :: c in padded[..cut] ==> c in padded;
    assert forall c :: c in padded[cut..] ==> c in padded;
    ValueConcat(padded[..cut], padded[cut..]);
  }

  lemma {:induction false} PadShown(fraction: string)
    requires IsDigits(fraction) && fraction != ""
    ensures var shown := AtLeastOne(TrimZeros(fraction));
            IsDigits(shown) && |PadEnd(shown, |fraction|)| >= |fraction| && PadEnd(shown, |fraction|)[..|fraction|] == fraction
  {
    TrimThenPad(fraction);
    if TrimZeros(fraction) == "" {
      ZerosFromFront(|fraction|);
      assert fraction == Zeros(|fraction|);
    }
  }

  lemma {:induction false} FormatDigitsRoundTrip(raw: string, decimals: nat, text: string)
    requires IsDigits(raw) && decimals > 0 && text == FormatDigits(raw, decimals)
    ensures IsDecimal(text) && Scaled(text, decimals) == Value(raw)
  {
    SplitPadded(raw, decimals);
    var padded := PadStart(raw, decimals + 1);
    var cut := |padded| - decimals;
    PadShown(padded[cut..]);
    ScaledOfParts(padded[..cut], AtLeastOne(TrimZeros(padded[cut..])), padded[cut..], decimals);
  }

  lemma {:induction false} NoSign(raw: string, decimals: nat)
    requires IsDigits(raw)
    ensures FormatAmount(raw, decimals) == if decimals == 0 then raw else FormatDigits(raw, decimals)
  {
    assert raw == "" || raw[0] in raw;
  }

  /**
   * Printing any raw amount and reading it back with the price parser returns the amount. Only
   * the empty string at zero decimals, printed as nothing, cannot be read back.
   */
  lemma {:induction false} FormatRoundTrip(raw: string, decimals: nat)
    requires IsDigits(raw)
    ensures IsDecimal(FormatAmount(raw, decimals)) <==> raw != "" || decimals > 0
    ensures raw != "" || decimals > 0 ==> Scaled(FormatAmount(raw, decimals), decimals) == Value(raw)
  {
    NoSign(raw, decimals);
    if decimals > 0 {
      FormatDigitsRoundTrip(raw, decimals, FormatAmount(raw, decimals));
    } else if raw != "" {
      PlainDigits(raw);
      assert PadEnd("", 0)[..0] == "";
    }
  }

  lemma {:induction false} PlainDigits(s: string)
    requires IsDigits(s) && s != ""
    ensures IsDecimal(s) && Whole(s) == s && Fraction(s) == ""
  {
    forall k | 0 <= k < |s| ensures s[k] != '.' {
      assert s[k] in s;
    }
  }

  lemma {:induction false} ZerosFromFront(n: nat)
    requires n > 0
    ensures "0" + Zeros(n - 1) == Zeros(n)
  {
    if n > 1 {
      ZerosFromFront(n - 1);
      assert "0" + (Zeros(n - 2) + "0") == ("0" + Zeros(n - 2)) + "0";
    }
  }

  /** A number written without leading zero is at least ten to its length less one. */
  lemma {:induction false} LengthBound(s: string)
    requires IsDigits(s) && s != "" && s[0] != '0'
    ensures Value(s) >= Pow10(|s| - 1)
  {
    var n := |s| - 1;
    assert s[n] in s && s[0] in s;
    if n == 0 {
      assert s[..0] == "";
    } else {
      assert forall c :: c in s[..n] ==> c in s;
      LengthBound(s[..n]);
    }
  }

  /** A digit string is below ten to its length. */
  lemma {:induction false} ValueBelow(s: string)
    requires IsDigits(s)
    ensures Value(s) < Pow10(|s|)
  {
    if s != "" {
      var n := |s| - 1;
      assert s[n] in s;
      assert forall c :: c in s[..n] ==> c in s;
      ValueBelow(s[..n]);
    }
  }

  lemma {:induction false} Pow10Monotone(a: nat, b: nat)
    requires a <= b
    ensures Pow10(a) <= Pow10(b)
    decreases b - a
  {
    if a < b {
      Pow10Monotone(a, b - 1);
    }
  }

  lemma {:induction false} PowSum(a: nat, b: nat)
    ensures Pow10(a + b) == Pow10(a) * Pow10(b)
  {
    if a > 0 {
      PowSum(a - 1, b);
      assert Pow10(a) * Pow10(b) == 10 * (Pow10(a - 1) * Pow10(b));
    }
  }

  // ─── What the parser computes ─────────────────────────────────────────────

  /** Whole and fractional digits in one run. */
  function AllDigits(s: string): string {
    Whole(s) + Fraction(s)
  }

  lemma {:induction false} PaddedValue(f: string, decimals: nat)
    requires IsDigits(f) && |f| <= decimals
    ensures IsDigits(PadEnd(f, decimals)) && |PadEnd(f, decimals)| == decimals
    ensures Value(PadEnd(f, decimals)) == Value(f) * Pow10(decimals - |f|)
  {
    if |f| < decimals {
      ValueZeros(decimals - |f|);
      ValueConcat(f, Zeros(decimals - |f|));
    } else {
      assert Pow10(0) == 1;
    }
  }

  /**
   * A fraction no longer than `decimals` is scaled exactly: the digits, dot removed, times ten
   * for each missing place.
   */
  lemma {:induction false} ScaledExactly(s: string, decimals: nat)
    requires IsDecimal(s) && |Fraction(s)| <= decimals
    ensures IsDigits(AllDigits(s)) && Scaled(s, decimals) == Value(AllDigits(s)) * Pow10(decimals - |Fraction(s)|)
  {
    FractionOfDecimal(s);
    var w, f := Whole(s), Fraction(s);
    PaddedValue(f, decimals);
    assert PadEnd(f, decimals)[..decimals] == PadEnd(f, decimals);
    ValueConcat(w, f);
    PowSum(|f|, decimals - |f|);
    Distribute(Value(w), Pow10(|f|), Pow10(decimals - |f|), Value(f));
  }

  lemma Distribute(w: nat, p: nat, q: nat, f: nat)
    ensures w * (p * q) + f * q == (w * p + f) * q
  {}

  /** A longer fraction is cut: the digits divided by ten for each place too many, rounded down. */
  lemma {:induction false} ScaledRoundsDown(s: string, decimals: nat)
    requires IsDecimal(s) && |Fraction(s)| > decimals
    ensures var unit := Pow10(|Fraction(s)| - decimals);
            && IsDigits(AllDigits(s))
            && Scaled(s, decimals) * unit <= Value(AllDigits(s)) < (Scaled(s, decimals) + 1) * unit
  {
    FractionOfDecimal(s);
    var w, f := Whole(s), Fraction(s);
    var kept := f[..decimals];
    assert PadEnd(f, decimals)[..decimals] == kept;
    CutDigits(w, f, decimals);
    ValueConcat(w, kept);
  }

  /** Cutting digits off divides by a power of ten, rounding down. */
  lemma {:induction false} CutDigits(w: string, f: string, kept: nat)
    requires IsDigits(w) && IsDigits(f) && kept <= |f|
    ensures IsDigits(w + f) && IsDigits(w + f[..kept]) && IsDigits(f[..kept])
    ensures var (unit, v) := (Pow10(|f| - kept), Value(w + f[..kept])); v * unit <= Value(w + f) < (v + 1) * unit
  {
    var front, cut := w + f[..kept], f[kept..];
    assert forall c :: c in f[..kept] ==> c in f;
    assert forall c :: c in cut ==> c in f;
    assert w + f == front + cut;
    ValueConcat(front, cut);
    ValueBelow(cut);
    UnitsAndRest(Value(front), Pow10(|cut|), Value(cut));
  }

  lemma UnitsAndRest(v: nat, unit: nat, rest: nat)
    requires rest < unit
    ensures v * unit <= v * unit + rest < (v + 1) * unit
  {}

  /** Plain digits are scaled by the full power. */
  lemma {:induction false} ScaledWhole(s: string, decimals: nat)
    requires IsDigits(s) && s != ""
    ensures IsDecimal(s) && Scaled(s, decimals) == Value(s) * Pow10(decimals)
  {
    PlainDigits(s);
    ScaledExactly(s, decimals);
    assert s + "" == s;
  }

  // ─── What the printer shows ───────────────────────────────────────────────

  lemma {:induction false} TrimmedEnd(s: string)
    ensures TrimZeros(s) <= s
    ensures TrimZeros(s) != "" ==> TrimZeros(s)[|TrimZeros(s)| - 1] != '0'
  {
    if s != "" && s[|s| - 1] == '0' {
      TrimmedEnd(s[..|s| - 1]);
    }
  }

  predicate NoTrailingZero(fraction: string) {
    fraction == "0" || (fraction != "" && fraction[|fraction| - 1] != '0')
  }

  /**
   * The printed form: as many whole digits as the amount has beyond `decimals`, at least one,
   * and a fraction of at least one and at most `decimals` digits without a zero at its end,
   * unless it is the single digit zero.
   */
  lemma {:induction false} FormatShape(raw: string, decimals: nat)
    requires IsDigits(raw) && decimals > 0
    ensures var text := FormatAmount(raw, decimals);
            && IsDecimal(text) && text == Whole(text) + "." + Fraction(text)
            && |Whole(text)| == (if |raw| > decimals then |raw| - decimals else 1)
            && 1 <= |Fraction(text)| <= decimals
            && NoTrailingZero(Fraction(text))
  {
    var whole, shown := FormatParts(raw, decimals);
    PartsOf(whole, shown);
  }

  lemma {:induction false} FormatParts(raw: string, decimals: nat) returns (whole: string, shown: string)
    requires IsDigits(raw) && decimals > 0
    ensures FormatAmount(raw, decimals) == whole + "." + shown
    ensures IsDigits(whole) && |whole| == (if |raw| > decimals then |raw| - decimals else 1)
    ensures IsDigits(shown) && 1 <= |shown| <= decimals && NoTrailingZero(shown)
  {
    NoSign(raw, decimals);
    SplitPadded(raw, decimals);
    var padded := PadStart(raw, decimals + 1);
    var cut := |padded| - decimals;
    whole, shown := padded[..cut], AtLeastOne(TrimZeros(padded[cut..]));
    ShownShape(padded[cut..]);
  }

  lemma {:induction false} ShownShape(fraction: string)
    requires IsDigits(fraction) && fraction != ""
    ensures var shown := AtLeastOne(TrimZeros(fraction));
            && IsDigits(shown) && 1 <= |shown| <= |fraction|
            && NoTrailingZero(shown)
  {
    TrimmedEnd(fraction);
    PadShown(fraction);
  }

  lemma {:induction false} PartsOf(whole: string, shown: string)
    requires IsDigits(whole) && IsDigits(shown) && whole != "" && shown != ""
    ensures var text := whole + "." + shown; IsDecimal(text) && Whole(text) == whole && Fraction(text) == shown
  {
    var text := whole + "." + shown;
    FirstDotOf(whole, shown);
    assert text[..|whole|] == whole && text[|whole| + 1..] == shown;
    FractionOfDecimal(text);
  }

  /** A minus sign is printed in front of what the digits alone would print. */
  lemma {:induction false} FormatNegative(digits: string, decimals: nat)
    requires IsDigits(digits)
    ensures FormatAmount("-" + digits, decimals) == "-" + FormatAmount(digits, decimals)
  {
    NoSign(digits, decimals);
    assert ("-" + digits)[1..] == digits;
  }

  /** Digits mean what they say: printing a number digit by digit and reading it returns it. */
  function Print(n: nat): string {
    (if n < 10 then "" else Print(n / 10)) + ["0123456789"[n % 10]]
  }

  lemma {:induction false} ValueOfPrint(n: nat)
    ensures IsDigits(Print(n)) && Value(Print(n)) == n
  {
    var front := if n < 10 then "" else Print(n / 10);
    if n >= 10 {
      ValueOfPrint(n / 10);
    }
    DigitOfNumeral(n % 10);
    ValueOfLast(front, "0123456789"[n % 10]);
    assert n == n / 10 * 10 + n % 10;
  }

  lemma {:induction false} ValueOfLast(front: string, c: char)
    requires IsDigits(front) && IsDigit(c)
    ensures IsDigits(front + [c]) && Value(front + [c]) == Value(front) * 10 + Digit(c)
  {
    assert (front + [c])[..|front|] == front;
  }

  lemma DigitOfNumeral(d: nat)
    requires d < 10
    ensures IsDigit("0123456789"[d]) && Digit("0123456789"[d]) == d
  {}

  /** A decimal text is digits, or digits, a dot and digits, with none of the runs empty. */
  lemma {:induction false} DecimalIff(s: string)
    ensures IsDecimal(s) <==>
              || (s != "" && IsDigits(s))
              || exists w, f :: w != "" && f != "" && IsDigits(w) && IsDigits(f) && s == w + "." + f
  {
    if IsDecimal(s) {
      FractionOfDecimal(s);
      var i := FirstDot(s);
      if i == |s| {
        assert s[..i] == s;
      } else {
        assert s == s[..i] + "." + s[i + 1..];
      }
    }
    if s != "" && IsDigits(s) {
      PlainDigits(s);
    }
    if w, f :| w != "" && f != "" && IsDigits(w) && IsDigits(f) && s == w + "." + f {
      PartsOf(w, f);
    }
  }
}
