/**
 The cost of token usage in decimal arithmetic, with the precision chosen so that nothing
 is ever rounded, and the accumulation of usage over calls
 (app/evaluation/live_model.py:300-336, 355-424).
 */
module Cost {
  import opened Wrappers
  import opened TextLines

  /** A finite nonnegative decimal: coefficient times ten to the exponent. */
  datatype Number = Number(coefficient: nat, exponent: int)

  function Pow10(n: nat): (r: nat)
    ensures r >= 1
  {
    if n == 0 then 1 else 10 * Pow10(n - 1)
  }

  /** `len(str(n))`. */
  function Digits(n: nat): (r: nat)
    ensures r >= 1
  {
    |Decimal(n)|
  }

  /** `number.adjusted()`. */
  function Adjusted(x: Number): int {
    x.exponent + Digits(x.coefficient) - 1
  }

  lemma {:induction false} PowSum(a: nat, b: nat)
    ensures Pow10(a + b) == Pow10(a) * Pow10(b)
  {
    if a == 0 {
      assert Pow10(0) * Pow10(b) == Pow10(b);
    } else {
      PowSum(a - 1, b);
      Associate(10, Pow10(a - 1), Pow10(b));
    }
  }

  lemma Associate(a: nat, b: nat, c: nat)
    ensures a * b * c == a * (b * c)
  {
  }

  lemma {:induction false} PowMonotone(a: nat, b: nat)
    requires a <= b
    ensures Pow10(a) <= Pow10(b)
  {
    if a < b {
      PowMonotone(a, b - 1);
    }
  }

  /** The numeral has as many digits as the power of ten above the number. */
  lemma {:induction false} DigitsBound(n: nat)
    ensures n < Pow10(Digits(n))
    decreases n
  {
    if n >= 10 {
      DigitsBound(n / 10);
      assert Digits(n) == Digits(n / 10) + 1;
    } else {
      assert Digits(n) == 1;
      assert Pow10(1) == 10;
    }
  }

  lemma {:induction false} FitsDigits(n: nat, size: nat)
    requires n < Pow10(size) && size >= 1
    ensures Digits(n) <= size
    decreases size
  {
    if n >= 10 {
      assert size > 1 by {
        assert Pow10(1) == 10 * Pow10(0);
      }
      FitsDigits(n / 10, size - 1);
    }
  }

  lemma TimesMonotone(a: nat, b: nat, c: nat)
    requires a <= b
    ensures a * c <= b * c && c * a <= c * b
  {
  }

  lemma ProductBelow(a: nat, b: nat, x: nat, y: nat)
    requires a < x && b < y
    ensures a * b < x * y
  {
    TimesMonotone(a, x - 1, b);
    TimesMonotone(b, y - 1, x - 1);
  }

  // ---------------------------------------------------------------- the context

  datatype Context = Context(precision: nat, minExponent: int, maxExponent: int)

  /** The number is kept as it is: digits, smallest exponent and magnitude are within the context. */
  predicate Representable(context: Context, x: Number) {
    && Digits(x.coefficient) <= context.precision
    && x.exponent >= context.minExponent - context.precision + 1
    && Adjusted(x) <= context.maxExponent
  }

  /** What an operation comes to: exact, or changed to fit the context. */
  datatype Result = Exact(number: Number) | Rounded

  function Fix(context: Context, x: Number): Result {
    if Representable(context, x) then Exact(x) else Rounded
  }

  function Multiply(context: Context, x: Number, y: Number): Result {
    Fix(context, Number(x.coefficient * y.coefficient, x.exponent + y.exponent))
  }

  /** Trailing zeros go while the exponent is below the ideal one. */
  function Strip(x: Number, ideal: int): Number
    decreases ideal - x.exponent
  {
    if x.exponent < ideal && x.coefficient % 10 == 0 then Strip(Number(x.coefficient / 10, x.exponent + 1), ideal) else x
  }

  function Shifted(n: nat, zeros: nat): nat {
    n * Pow10(zeros)
  }

  function Quotient(dividend: nat, divisor: nat): nat
    requires divisor > 0
  {
    dividend / divisor
  }

  /** Division in as many digits as the precision asks, then as close to the ideal exponent as exactness allows. */
  function Divide(context: Context, x: Number, y: Number): Result
    requires y.coefficient > 0
  {
    var ideal := x.exponent - y.exponent;
    if x.coefficient == 0 then Fix(context, Number(0, ideal))
    else
      var shift := Digits(y.coefficient) - Digits(x.coefficient) + context.precision + 1;
      var dividend := if shift >= 0 then Shifted(x.coefficient, shift) else x.coefficient;
      var divisor := if shift >= 0 then y.coefficient else Shifted(y.coefficient, -shift);
      if divisor == 0 || dividend % divisor != 0 then Rounded
      else Fix(context, Strip(Number(Quotient(dividend, divisor), ideal - shift), ideal))
  }

  function Smaller(a: int, b: int): (r: int)
    ensures r <= a && r <= b && (r == a || r == b)
  {
    if a <= b then a else b
  }

  function Larger(a: int, b: int): (r: int)
    ensures r >= a && r >= b && (r == a || r == b)
  {
    if a >= b then a else b
  }

  /** The coefficient once the exponent is lowered. */
  function Scaled(x: Number, exponent: int): nat
    requires exponent <= x.exponent
  {
    x.coefficient * Pow10(x.exponent - exponent)
  }

  function Add(context: Context, x: Number, y: Number): Result {
    var exponent := Smaller(x.exponent, y.exponent);
    Fix(context, Number(Scaled(x, exponent) + Scaled(y, exponent), exponent))
  }

  const MILLION := Number(1_000_000, 0)
  const DEFAULT_MIN := -999_999
  const DEFAULT_MAX := 999_999
  const MAX_TOKEN_COUNT: nat := 0x7fff_ffff_ffff_ffff

  datatype Rates = Rates(input: Number, output: Number)

  /** `rate.adjusted() + len(str(tokens or 1))`. */
  function AdjustedFor(rate: Number, tokens: nat): int {
    Adjusted(rate) + Digits(if tokens == 0 then 1 else tokens)
  }

  function Highest(input: nat, output: nat, rates: Rates): int {
    Larger(AdjustedFor(rates.input, input), AdjustedFor(rates.output, output))
  }

  function Lowest(rates: Rates): int {
    Smaller(rates.input.exponent - 6, rates.output.exponent - 6)
  }

  /** The precision and the exponent range chosen for the calculation. */
  function ChosenContext(input: nat, output: nat, rates: Rates): (r: Context)
    ensures r.precision >= 28
  {
    var highest, lowest := Highest(input, output, rates), Lowest(rates);
    Context(Larger(28, highest - lowest + 3), Smaller(DEFAULT_MIN, lowest - 3), Larger(DEFAULT_MAX, highest + 3))
  }

  function Share(context: Context, tokens: nat, rate: Number): Result {
    match Multiply(context, Number(tokens, 0), rate)
    case Rounded => Rounded
    case Exact(product) => Divide(context, product, MILLION)
  }

  /** `calculate_estimated_cost_usd` for counts in range. */
  function EstimatedCost(input: nat, output: nat, rates: Rates): Result {
    var context := ChosenContext(input, output, rates);
    match Share(context, input, rates.input)
    case Rounded => Rounded
    case Exact(x) =>
      match Share(context, output, rates.output)
      case Rounded => Rounded
      case Exact(y) => Add(context, x, y)
  }

  // ---------------------------------------------------------------- exactness

  /** The two scales of one number agree. */
  lemma ScaledTwice(x: Number, middle: int, low: int)
    requires low <= middle <= x.exponent
    ensures Scaled(x, low) == Scaled(x, middle) * Pow10(middle - low)
  {
    PowSum(x.exponent - middle, middle - low);
    Associate(x.coefficient, Pow10(x.exponent - middle), Pow10(middle - low));
  }

  /** What rate and tokens say the share is, in units of ten to `low`. */
  function TrueShare(tokens: nat, rate: Number, low: int): nat
    requires low <= rate.exponent - 6
  {
    tokens * rate.coefficient * Pow10(rate.exponent - 6 - low)
  }

  lemma ProductDigits(tokens: nat, rate: Number)
    ensures tokens * rate.coefficient < Pow10(AdjustedFor(rate, tokens) - rate.exponent + 1)
    ensures AdjustedFor(rate, tokens) - rate.exponent + 1 >= 2
  {
    hide Digits;
    var t := if tokens == 0 then 1 else tokens;
    DigitsBound(t);
    DigitsBound(rate.coefficient);
    PowSum(Digits(t), Digits(rate.coefficient));
    ProductBelow(tokens, rate.coefficient, Pow10(Digits(t)), Pow10(Digits(rate.coefficient)));
  }

  /** Stripping keeps the value, and stops only at the ideal exponent or at a last digit that is not zero. */
  lemma {:induction false} StripKeeps(x: Number, ideal: int)
    requires x.exponent <= ideal
    ensures var r := Strip(x, ideal);
            && x.exponent <= r.exponent <= ideal && Scaled(r, x.exponent) == x.coefficient
            && (r.exponent < ideal ==> r.coefficient % 10 != 0)
    decreases ideal - x.exponent
  {
    if x.exponent < ideal && x.coefficient % 10 == 0 {
      var next := Number(x.coefficient / 10, x.exponent + 1);
      StripKeeps(next, ideal);
      var r := Strip(next, ideal);
      ScaledTwice(r, next.exponent, x.exponent);
      assert Pow10(1) == 10;
    } else {
      assert Pow10(0) == 1;
    }
  }

  lemma CancelPow(a: nat, b: nat, n: nat)
    requires a * Pow10(n) == b * Pow10(n)
    ensures a == b
  {
    if a < b {
      TimesMonotone(a + 1, b, Pow10(n));
    } else if b < a {
      TimesMonotone(b + 1, a, Pow10(n));
    }
  }

  /** A coefficient that still lacks some of the zeros ends in zero. */
  lemma EndsInZero(r: nat, steps: nat, c: nat, zeros: nat)
    requires r * Pow10(steps) == c * Pow10(zeros) && steps < zeros
    ensures r % 10 == 0
  {
    hide Pow10;
    var more := zeros - steps - 1;
    PowSum(more + 1, steps);
    Associate(c, Pow10(more + 1), Pow10(steps));
    CancelPow(r, c * Pow10(more + 1), steps);
    OneMorePow(more);
    TenTimes(c, Pow10(more));
  }

  lemma OneMorePow(n: nat)
    ensures Pow10(n + 1) == 10 * Pow10(n)
  {
  }

  lemma TenTimes(a: nat, b: nat)
    ensures a * (10 * b) % 10 == 0
  {
    assert a * (10 * b) == 10 * (a * b);
  }

  /** A number with zeros behind it strips back at least to where they began. */
  lemma StripBack(c: nat, zeros: nat, exponent: int, ideal: int)
    requires exponent + zeros <= ideal
    ensures var r := Strip(Number(c * Pow10(zeros), exponent), ideal);
            && exponent + zeros <= r.exponent <= ideal
            && Scaled(r, exponent + zeros) == c
  {
    hide Pow10, Strip;
    StripKeeps(Number(c * Pow10(zeros), exponent), ideal);
    var r := Strip(Number(c * Pow10(zeros), exponent), ideal);
    if r.exponent - exponent < zeros {
      EndsInZero(r.coefficient, r.exponent - exponent, c, zeros);
    } else {
      ScaledTwice(r, exponent + zeros, exponent);
      CancelPow(Scaled(r, exponent + zeros), c, zeros);
    }
  }

  // ---------------------------------------------------------------- one share

  lemma NumberFits(context: Context, x: Number, size: nat)
    requires x.coefficient < Pow10(size) && 1 <= size <= context.precision
    requires x.exponent >= context.minExponent && x.exponent + size - 1 <= context.maxExponent
    ensures Fix(context, x) == Exact(x)
  {
    hide Digits, Pow10;
    FitsDigits(x.coefficient, size);
  }

  lemma MillionDigits()
    ensures Digits(1_000_000) == 7 && Pow10(6) == 1_000_000
  {
    assert Digits(1) == 1 && Digits(10) == 2 && Digits(100) == 3 && Digits(1000) == 4;
    assert Digits(10_000) == 5 && Digits(100_000) == 6;
    assert Pow10(2) == 100 && Pow10(4) == 10_000;
  }

  lemma WholeQuotient(q: nat)
    ensures q * 1_000_000 % 1_000_000 == 0 && Quotient(q * 1_000_000, 1_000_000) == q
  {
  }

  /** A dividend with enough zeros is a whole number of millions. */
  lemma WholeDividend(n: nat, shift: nat) returns (quotient: nat)
    requires shift >= 6
    ensures quotient == n * Pow10(shift - 6) && Shifted(n, shift) == quotient * 1_000_000
  {
    hide Pow10;
    MillionDigits();
    PowSum(shift - 6, 6);
    Associate(n, Pow10(shift - 6), 1_000_000);
    quotient := n * Pow10(shift - 6);
  }

  lemma DivideWhole(context: Context, x: Number, shift: nat, quotient: nat)
    requires x.coefficient > 0 && shift == 7 - Digits(x.coefficient) + context.precision + 1
    requires Shifted(x.coefficient, shift) == quotient * 1_000_000
    ensures Divide(context, x, MILLION) == Fix(context, Strip(Number(quotient, x.exponent - shift), x.exponent))
  {
    hide Pow10, Shifted, Digits, Strip, Fix, Quotient;
    MillionDigits();
    WholeQuotient(quotient);
  }

  /** Division by a million only moves the point. */
  lemma DivideMillion(context: Context, x: Number, size: nat)
    requires 1 <= size <= context.precision && x.coefficient < Pow10(size)
    requires x.exponent - 6 >= context.minExponent && x.exponent + size - 1 <= context.maxExponent
    ensures var r := Divide(context, x, MILLION);
            && r.Exact?
            && x.exponent - 6 <= r.number.exponent <= x.exponent
            && Scaled(r.number, x.exponent - 6) == x.coefficient
  {
    hide Digits, Pow10, Strip, Fix, Divide, Shifted;
    if x.coefficient == 0 {
      NumberFits(context, Number(0, x.exponent), size);
      DivideZero(context, x);
    } else {
      FitsDigits(x.coefficient, size);
      var shift := 7 - Digits(x.coefficient) + context.precision + 1;
      var quotient := WholeDividend(x.coefficient, shift);
      DivideWhole(context, x, shift, quotient);
      StripBack(x.coefficient, shift - 6, x.exponent - shift, x.exponent);
      var r := Strip(Number(quotient, x.exponent - shift), x.exponent);
      CoefficientBelow(r, x.exponent - 6);
      NumberFits(context, r, size);
    }
  }

  lemma DivideZero(context: Context, x: Number)
    requires x.coefficient == 0
    ensures Divide(context, x, MILLION) == Fix(context, Number(0, x.exponent))
  {
    hide Fix;
  }

  lemma CoefficientBelow(x: Number, low: int)
    requires low <= x.exponent
    ensures x.coefficient <= Scaled(x, low)
  {
    TimesMonotone(1, Pow10(x.exponent - low), x.coefficient);
  }

  /** A share is exact: tokens times rate, six places further down. */
  lemma ShareExact(context: Context, tokens: nat, rate: Number, low: int)
    requires low <= rate.exponent - 6
    requires context.minExponent <= low && AdjustedFor(rate, tokens) <= context.maxExponent
    requires AdjustedFor(rate, tokens) - rate.exponent + 1 <= context.precision
    ensures var r := Share(context, tokens, rate);
            r.Exact? && r.number.exponent >= low && r.number.exponent <= rate.exponent && Scaled(r.number, low) == TrueShare(tokens, rate, low)
  {
    hide Digits, Pow10, Divide, AdjustedFor, Representable;
    var size := AdjustedFor(rate, tokens) - rate.exponent + 1;
    var product := Number(tokens * rate.coefficient, rate.exponent);
    ProductDigits(tokens, rate);
    NumberFits(context, product, size);
    DivideMillion(context, product, size);
    var r := Divide(context, product, MILLION).number;
    ScaledTwice(r, rate.exponent - 6, low);
  }

  /** Units of ten to `Lowest(rates)`: tokens times rates, six places further down. */
  function TrueCost(input: nat, output: nat, rates: Rates): nat {
    TrueShare(input, rates.input, Lowest(rates)) + TrueShare(output, rates.output, Lowest(rates))
  }

  /** A share has fewer digits than the precision leaves room for. */
  lemma ShareBelow(tokens: nat, rate: Number, low: int, size: nat)
    requires low <= rate.exponent - 6 && AdjustedFor(rate, tokens) - 5 - low <= size
    ensures TrueShare(tokens, rate, low) < Pow10(size)
  {
    hide Pow10, AdjustedFor;
    var digits := AdjustedFor(rate, tokens) - rate.exponent + 1;
    var zeros := rate.exponent - 6 - low;
    ProductDigits(tokens, rate);
    PowSum(digits, zeros);
    ProductLess(tokens * rate.coefficient, Pow10(digits), Pow10(zeros));
    PowMonotone(digits + zeros, size);
  }

  lemma ProductLess(a: nat, b: nat, c: nat)
    requires a < b && c >= 1
    ensures a * c < b * c
  {
    TimesMonotone(a + 1, b, c);
  }

  /** The exact sum of two exact numbers below a power of ten. */
  lemma AddExact(context: Context, x: Number, y: Number, low: int, size: nat)
    requires low <= x.exponent && low <= y.exponent && context.minExponent <= low
    requires Scaled(x, low) < Pow10(size) && Scaled(y, low) < Pow10(size)
    requires size + 1 <= context.precision && Smaller(x.exponent, y.exponent) + size <= context.maxExponent
    ensures var r := Add(context, x, y);
            r.Exact? && r.number.exponent >= low && Scaled(r.number, low) == Scaled(x, low) + Scaled(y, low)
  {
    hide Pow10, Digits, Representable;
    var exponent := Smaller(x.exponent, y.exponent);
    var sum := Number(Scaled(x, exponent) + Scaled(y, exponent), exponent);
    ScaledTwice(x, exponent, low);
    ScaledTwice(y, exponent, low);
    SumScaled(Scaled(x, exponent), Scaled(y, exponent), Pow10(exponent - low));
    CoefficientBelow(sum, low);
    OneMorePow(size);
    NumberFits(context, sum, size + 1);
  }

  lemma SumScaled(a: nat, b: nat, c: nat)
    ensures (a + b) * c == a * c + b * c
  {
  }

  /** No operation of the calculation rounds, and its result is exactly tokens times rates over a million. */
  lemma CostExact(input: nat, output: nat, rates: Rates)
    ensures var r := EstimatedCost(input, output, rates);
            r.Exact? && r.number.exponent >= Lowest(rates) && Scaled(r.number, Lowest(rates)) == TrueCost(input, output, rates)
  {
    hide Pow10, Digits, AdjustedFor, Share, Add, Scaled;
    var context, low, high := ChosenContext(input, output, rates), Lowest(rates), Highest(input, output, rates);
    AdjustedAtLeast(rates.input, input);
    AdjustedAtLeast(rates.output, output);
    ShareExact(context, input, rates.input, low);
    ShareExact(context, output, rates.output, low);
    var x, y := Share(context, input, rates.input).number, Share(context, output, rates.output).number;
    var size := high - 5 - low;
    ShareBelow(input, rates.input, low, size);
    ShareBelow(output, rates.output, low, size);
    LowestOfTwo(x, y, rates);
    AddExact(context, x, y, low, size);
  }

  lemma AdjustedAtLeast(rate: Number, tokens: nat)
    ensures AdjustedFor(rate, tokens) >= rate.exponent + 1
  {
  }

  lemma LowestOfTwo(x: Number, y: Number, rates: Rates)
    requires x.exponent <= rates.input.exponent && y.exponent <= rates.output.exponent
    ensures Smaller(x.exponent, y.exponent) <= Lowest(rates) + 6
  {
  }

  /** As a rational number the cost of two calls together is the sum of their costs. */
  lemma CostAdds(input: nat, output: nat, moreInput: nat, moreOutput: nat, rates: Rates)
    ensures var low := Lowest(rates);
            var both := EstimatedCost(input + moreInput, output + moreOutput, rates);
            var one, other := EstimatedCost(input, output, rates), EstimatedCost(moreInput, moreOutput, rates);
            && both.Exact? && one.Exact? && other.Exact?
            && low <= both.number.exponent && low <= one.number.exponent && low <= other.number.exponent
            && Scaled(both.number, low) == Scaled(one.number, low) + Scaled(other.number, low)
  {
    hide Pow10, EstimatedCost, Scaled;
    CostExact(input + moreInput, output + moreOutput, rates);
    CostExact(input, output, rates);
    CostExact(moreInput, moreOutput, rates);
    ShareAdds(input, moreInput, rates.input, Lowest(rates));
    ShareAdds(output, moreOutput, rates.output, Lowest(rates));
  }

  lemma ShareAdds(tokens: nat, more: nat, rate: Number, low: int)
    requires low <= rate.exponent - 6
    ensures TrueShare(tokens + more, rate, low) == TrueShare(tokens, rate, low) + TrueShare(more, rate, low)
  {
    hide Pow10;
    SumScaled(tokens, more, rate.coefficient);
    SumScaled(tokens * rate.coefficient, more * rate.coefficient, Pow10(rate.exponent - 6 - low));
  }

  // ---------------------------------------------------------------- usage over calls

  /** What one call to the provider shows: clock readings and token counts, or nothing. */
  datatype Call = Call(started: real, completed: real, input: nat, output: nat)

  datatype Usage = Usage(latency: real, input: nat, output: nat, cost: Number)

  class Provider {
    const rates: Rates
    var latency: real
    var input: nat
    var output: nat

    constructor (rates: Rates)
      ensures this.rates == rates && Valid() && latency == 0.0 && input == 0 && output == 0
    {
      this.rates := rates;
      latency, input, output := 0.0, 0, 0;
    }

    ghost predicate Valid()
      reads this
    {
      latency >= 0.0 && input <= 0x7fff_ffff_ffff_ffff && output <= 0x7fff_ffff_ffff_ffff
    }

    /** `snapshot_usage`: complete, with the exact cost of all calls so far. */
    method SnapshotUsage() returns (usage: Option<Usage>)
      requires Valid()
      ensures usage.Some?
      ensures usage.value.latency == latency && usage.value.input == input && usage.value.output == output
      ensures usage.value.cost.exponent >= Lowest(rates)
      ensures Scaled(usage.value.cost, Lowest(rates)) == TrueCost(input, output, rates)
    {
      hide Scaled, TrueCost, EstimatedCost, Lowest;
      CostExact(input, output, rates);
      var cost := EstimatedCost(input, output, rates);
      usage := if cost.Exact? then Some(Usage(latency, input, output, cost.number)) else None;
    }

    /** The accounting of `complete`: all or nothing, within the bound. */
    method Complete(call: Option<Call>) returns (ok: bool)
      requires Valid()
      modifies this
      ensures Valid()
      ensures ok <==>
                && call.Some? && call.value.completed >= call.value.started
                && call.value.input + old(input) <= 0x7fff_ffff_ffff_ffff && call.value.output + old(output) <= 0x7fff_ffff_ffff_ffff
      ensures ok ==> input == old(input) + call.value.input && output == old(output) + call.value.output
      ensures ok ==> latency == old(latency) + (call.value.completed - call.value.started)
      ensures !ok ==> input == old(input) && output == old(output) && latency == old(latency)
    {
      if call.None? || call.value.completed < call.value.started {
        return false;
      }
      var nextLatency := latency + (call.value.completed - call.value.started);
      var nextInput, nextOutput := input + call.value.input, output + call.value.output;
      if call.value.input > MAX_TOKEN_COUNT || call.value.output > MAX_TOKEN_COUNT
         || nextInput > MAX_TOKEN_COUNT || nextOutput > MAX_TOKEN_COUNT {
        return false;
      }
      latency, input, output := nextLatency, nextInput, nextOutput;
      var usage := SnapshotUsage();
      ok := usage.Some?;
    }
  }
}
