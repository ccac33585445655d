/**
 Money in micro-units, and the rounding of costs computed from token prices.

 Decimal amounts are real numbers: only the final rounding to micro-units is inexact.
*/
module Money {
  import opened Wrappers
  import R = Run

  datatype MoneyError = NegativeAmount | NegativeTokens

  const MICRO: real := 1000000.0

  function Minus(a: nat, b: nat): Result<nat, MoneyError> {
    if a < b then Err(NegativeAmount) else Ok(a - b)
  }

  // ------------------------------------------------------------------ rounding

  /** Rounds to the nearest integer, and ties to the even one. */
  function HalfEven(x: real): int {
    var f := x.Floor;
    if x - f as real < 0.5 then f
    else if x - f as real > 0.5 then f + 1
    else if f % 2 == 0 then f
    else f + 1
  }

  /** Rounds to the nearest integer, and ties away from zero. */
  function HalfUp(x: real): int {
    if 0.0 <= x then (x + 0.5).Floor else -((0.5 - x).Floor)
  }

  predicate Near(n: real, x: real, bound: real) {
    -bound <= n - x <= bound
  }

  lemma HalfEvenIsNear(x: real)
    ensures Near(HalfEven(x) as real, x, 0.5)
  {
  }

  /** An integer is what a number rounds to exactly if it is nearer than any other, or even and as near. */
  lemma RoundsToExactly(x: real, n: int)
    ensures HalfEven(x) == n <==>
      -0.5 < x - n as real < 0.5 || ((x - n as real == 0.5 || x - n as real == -0.5) && n % 2 == 0)
  {
    HalfEvenIsNear(x);
  }

  lemma HalfEvenIsMonotone(x: real, y: real)
    requires x <= y
    ensures HalfEven(x) <= HalfEven(y)
  {
    if x.Floor != y.Floor {
      assert x.Floor + 1 <= y.Floor;
    }
  }

  // ------------------------------------------------------------------ decimal amounts

  function FromDecimal(amount: real): Result<nat, MoneyError> {
    var micro := HalfUp(amount * MICRO);
    if micro < 0 then Err(NegativeAmount) else Ok(micro)
  }

  function ToDecimal(money: nat): real {
    money as real / MICRO
  }

  lemma HalfUpOfInteger(n: int)
    ensures HalfUp(n as real) == n
  {
    assert (n as real + 0.5).Floor == n;
    assert (0.5 - n as real).Floor == -n;
  }

  /** A number rounds up to `n` from half below it on, and no longer from half above it on; below zero the
      other way round. */
  lemma HalfUpExactly(x: real, n: int)
    ensures 0.0 <= x ==> (HalfUp(x) == n <==> n as real - 0.5 <= x < n as real + 0.5)
    ensures x <= 0.0 ==> (HalfUp(x) == n <==> n as real - 0.5 < x <= n as real + 0.5)
  {
  }

  /** An amount is accepted exactly when it rounds to no less than zero. */
  lemma FromDecimalExactly(amount: real)
    ensures FromDecimal(amount).Err? <==> amount * MICRO <= -0.5
    ensures FromDecimal(amount).Ok? ==> Near(FromDecimal(amount).value as real, amount * MICRO, 0.5)
    ensures forall n: nat :: FromDecimal(amount) == Ok(n) <==>
      n as real - 0.5 <= amount * MICRO < n as real + 0.5 && -0.5 < amount * MICRO
  {
    var micro := amount * MICRO;
    forall n: nat ensures FromDecimal(amount) == Ok(n) <==>
      n as real - 0.5 <= micro < n as real + 0.5 && -0.5 < micro {
      HalfUpExactly(micro, n);
    }
  }

  /** Money survives the way to a decimal and back; a decimal survives the way to money and back
      exactly when it is a non-negative whole number of micro-units. */
  lemma DecimalRoundTrip(money: nat, amount: real)
    ensures FromDecimal(ToDecimal(money)) == Ok(money)
    ensures FromDecimal(amount).Ok? && ToDecimal(FromDecimal(amount).value) == amount
       <==> 0.0 <= amount && (amount * MICRO).Floor as real == amount * MICRO
  {
    assert ToDecimal(money) * MICRO == money as real;
    HalfUpOfInteger(money);
    var micro := amount * MICRO;
    if micro.Floor as real == micro {
      HalfUpOfInteger(micro.Floor);
    }
  }

  // ------------------------------------------------------------------ costs of tokens

  /** Prices in dollars per million tokens. */
  datatype Prices = Prices(prompt: real, completion: real)

  datatype Usage = Usage(promptTokens: int, completionTokens: int)

  /** A usage with no negative count. */
  type ValidUsage = u: Usage | 0 <= u.promptTokens && 0 <= u.completionTokens witness Usage(0, 0)

  function Charge(tokens: int, price: real): real {
    tokens as real * price
  }

  /** The cost of a usage in micro-units, before rounding. */
  function ExactCost(p: Prices, u: Usage): real {
    Charge(u.promptTokens, p.prompt) + Charge(u.completionTokens, p.completion)
  }

  function CalculateCost(p: Prices, u: Usage): Result<int, MoneyError> {
    if u.promptTokens < 0 || u.completionTokens < 0 then Err(NegativeTokens)
    else
      var promptCost := Charge(u.promptTokens, p.prompt) / MICRO;
      var completionCost := Charge(u.completionTokens, p.completion) / MICRO;
      Ok(HalfEven((promptCost + completionCost) * MICRO))
  }

  /** The billed cost is within half a micro-unit of the exact one, and rounds ties to even. */
  lemma CostIsNear(p: Prices, u: ValidUsage)
    ensures CalculateCost(p, u) == Ok(HalfEven(ExactCost(p, u)))
    ensures Near(CalculateCost(p, u).value as real, ExactCost(p, u), 0.5)
  {
    var a, b := Charge(u.promptTokens, p.prompt), Charge(u.completionTokens, p.completion);
    assert (a / MICRO + b / MICRO) * MICRO == a + b;
    HalfEvenIsNear(ExactCost(p, u));
  }

  lemma Distribute(x: real, y: real, price: real)
    ensures (x + y) * price == x * price + y * price
  {
  }

  lemma NotNegative(x: real, y: real)
    requires 0.0 <= x && 0.0 <= y
    ensures 0.0 <= x * y
  {
  }

  /** The prices are for a million tokens of their kind. */
  lemma PriceOfAMillion(p: Prices)
    ensures ExactCost(p, Usage(1_000_000, 0)) == p.prompt * MICRO
    ensures ExactCost(p, Usage(0, 1_000_000)) == p.completion * MICRO
    ensures ExactCost(p, Usage(0, 0)) == 0.0
  {
  }

  lemma MoreCostsMore(x: nat, y: nat, price: real)
    requires x <= y && 0.0 <= price
    ensures 0.0 <= Charge(x, price) <= Charge(y, price)
  {
    NotNegative(x as real, price);
    NotNegative(y as real - x as real, price);
    Distribute(x as real, y as real - x as real, price);
  }

  lemma ExactCostIsMonotone(p: Prices, u: ValidUsage, v: ValidUsage)
    requires 0.0 <= p.prompt && 0.0 <= p.completion
    requires u.promptTokens <= v.promptTokens && u.completionTokens <= v.completionTokens
    ensures 0.0 <= ExactCost(p, u) <= ExactCost(p, v)
  {
    MoreCostsMore(u.promptTokens, v.promptTokens, p.prompt);
    MoreCostsMore(u.completionTokens, v.completionTokens, p.completion);
  }

  /** With non-negative prices, more tokens never cost less, and nothing costs less than nothing. */
  lemma CostIsMonotone(p: Prices, u: ValidUsage, v: ValidUsage)
    requires 0.0 <= p.prompt && 0.0 <= p.completion
    requires u.promptTokens <= v.promptTokens && u.completionTokens <= v.completionTokens
    ensures 0 <= CalculateCost(p, u).value <= CalculateCost(p, v).value
  {
    ExactCostIsMonotone(p, u, v);
    CostIsNear(p, u);
    CostIsNear(p, v);
    HalfEvenIsMonotone(0.0, ExactCost(p, u));
    HalfEvenIsMonotone(ExactCost(p, u), ExactCost(p, v));
  }

  function Together(usages: seq<ValidUsage>, n: nat): ValidUsage
    requires n <= |usages|
  {
    if n == 0 then Usage(0, 0)
    else
      var u, v := Together(usages, n - 1), usages[n - 1];
      Usage(u.promptTokens + v.promptTokens, u.completionTokens + v.completionTokens)
  }

  /** What the first `n` usages cost when each is billed by itself. */
  function BilledSeparately(p: Prices, usages: seq<ValidUsage>, n: nat): int
    requires n <= |usages|
  {
    if n == 0 then 0 else BilledSeparately(p, usages, n - 1) + CalculateCost(p, usages[n - 1]).value
  }

  lemma ChargesAdd(x: int, y: int, price: real)
    ensures Charge(x + y, price) == Charge(x, price) + Charge(y, price)
  {
    Distribute(x as real, y as real, price);
  }

  lemma ExactCostsAdd(p: Prices, u: Usage, v: Usage)
    ensures ExactCost(p, Usage(u.promptTokens + v.promptTokens, u.completionTokens + v.completionTokens))
         == ExactCost(p, u) + ExactCost(p, v)
  {
    ChargesAdd(u.promptTokens, v.promptTokens, p.prompt);
    ChargesAdd(u.completionTokens, v.completionTokens, p.completion);
  }

  lemma {:induction false} RoundingAccumulates(p: Prices, usages: seq<ValidUsage>, n: nat)
    requires n <= |usages|
    ensures Near(BilledSeparately(p, usages, n) as real, ExactCost(p, Together(usages, n)), n as real / 2.0)
  {
    if 0 < n {
      RoundingAccumulates(p, usages, n - 1);
      CostIsNear(p, usages[n - 1]);
      ExactCostsAdd(p, Together(usages, n - 1), usages[n - 1]);
    }
  }

  /** Billing `n` calls one by one and billing their tokens together differ by at most (n + 1) / 2. */
  lemma SplittingBills(p: Prices, usages: seq<ValidUsage>)
    ensures var n := |usages|;
      Near(BilledSeparately(p, usages, n) as real,
           CalculateCost(p, Together(usages, n)).value as real,
           (n + 1) as real / 2.0)
  {
    RoundingAccumulates(p, usages, |usages|);
    CostIsNear(p, Together(usages, |usages|));
  }

  /** What rounding leaves over of a number: its fractional part, or what is missing to the next integer;
      of a half, as much either way, so that an even integer remains. */
  function Rest(x: real): real {
    var part := x - x.Floor as real;
    if part < 0.5 then part
    else if 0.5 < part then part - 1.0
    else if x.Floor % 2 == 0 then 0.5
    else -0.5
  }

  lemma RestIsLeftOver(x: real)
    ensures x == HalfEven(x) as real + Rest(x)
  {
  }

  /** The rests of the exact costs of the first `n` usages, together. */
  function Rests(p: Prices, usages: seq<ValidUsage>, n: nat): real
    requires n <= |usages|
  {
    if n == 0 then 0.0 else Rests(p, usages, n - 1) + Rest(ExactCost(p, usages[n - 1]))
  }

  lemma {:induction false} RestsAddUp(p: Prices, usages: seq<ValidUsage>, n: nat)
    requires n <= |usages|
    ensures ExactCost(p, Together(usages, n)) == BilledSeparately(p, usages, n) as real + Rests(p, usages, n)
  {
    if 0 < n {
      RestsAddUp(p, usages, n - 1);
      ExactCostsAdd(p, Together(usages, n - 1), usages[n - 1]);
      CostIsNear(p, usages[n - 1]);
      RestIsLeftOver(ExactCost(p, usages[n - 1]));
    }
  }

  /** What is rounded away of `x` is `rest` exactly if that is nearer than half, or half and on the even side. */
  predicate RoundsAway(x: real, rest: real) {
    || -0.5 < rest < 0.5
    || (rest == 0.5 && x.Floor % 2 == 0)
    || (rest == -0.5 && x.Floor % 2 == 1)
  }

  lemma RoundsAwayExactly(x: real, n: int, rest: real)
    requires x == n as real + rest
    ensures HalfEven(x) == n <==> RoundsAway(x, rest)
  {
    RoundsToExactly(x, n);
    if rest == 0.5 {
      assert x.Floor == n;
    } else if rest == -0.5 {
      assert x.Floor == n - 1;
    }
  }

  /** Billing calls separately charges what one bill would, for all prices and usages, exactly when the
      rests of the exact costs add up to less than half a micro-unit either way, or to a half that one
      bill would round away as well. */
  lemma SplittingIsFairExactly(p: Prices, usages: seq<ValidUsage>)
    ensures var n := |usages|;
      CalculateCost(p, Together(usages, n)).value == BilledSeparately(p, usages, n) <==>
        RoundsAway(ExactCost(p, Together(usages, n)), Rests(p, usages, n))
  {
    var n := |usages|;
    RestsAddUp(p, usages, n);
    CostIsNear(p, Together(usages, n));
    RoundsAwayExactly(ExactCost(p, Together(usages, n)), BilledSeparately(p, usages, n), Rests(p, usages, n));
  }

  const HALF_A_UNIT := Prices(0.5, 0.0)

  lemma SingleTokenIsFree(u: ValidUsage)
    requires u == Usage(1, 0)
    ensures CalculateCost(HALF_A_UNIT, u) == Ok(0)
  {
    CostIsNear(HALF_A_UNIT, u);
    assert ExactCost(HALF_A_UNIT, u) == 0.5;
    assert (0.5).Floor == 0;
  }

  lemma {:induction false} SingleTokensAdd(usages: seq<ValidUsage>, n: nat)
    requires n <= |usages| && forall i :: 0 <= i < n ==> usages[i] == Usage(1, 0)
    ensures BilledSeparately(HALF_A_UNIT, usages, n) == 0
    ensures Together(usages, n) == Usage(n, 0)
  {
    if 0 < n {
      SingleTokensAdd(usages, n - 1);
      SingleTokenIsFree(usages[n - 1]);
    }
  }

  /** The difference really grows with the number of calls: single prompt tokens at half a micro-unit
      are free, however many there are, but not when billed together. */
  lemma SmallCallsAreFree(usages: seq<ValidUsage>, n: nat)
    requires n <= |usages| && forall i :: 0 <= i < n ==> usages[i] == Usage(1, 0)
    ensures BilledSeparately(HALF_A_UNIT, usages, n) == 0
    ensures Near(CalculateCost(HALF_A_UNIT, Together(usages, n)).value as real, n as real * 0.5, 0.5)
  {
    SingleTokensAdd(usages, n);
    CostIsNear(HALF_A_UNIT, Together(usages, n));
    assert ExactCost(HALF_A_UNIT, Usage(n, 0)) == Charge(n, 0.5) + Charge(0, 0.0);
    assert Charge(n, 0.5) == n as real * 0.5 && Charge(0, 0.0) == 0.0;
  }

  // ------------------------------------------------------------------ the flat price of runs

  function Sum(tokens: seq<nat>, n: nat): nat
    requires n <= |tokens|
  {
    if n == 0 then 0 else Sum(tokens, n - 1) + tokens[n - 1]
  }

  function FlatSeparately(tokens: seq<nat>, n: nat): nat
    requires n <= |tokens|
  {
    if n == 0 then 0 else FlatSeparately(tokens, n - 1) + R.TokenCost(tokens[n - 1])
  }

  lemma FlatSplit(a: nat, b: nat)
    ensures R.TokenCost(a) + R.TokenCost(b) <= R.TokenCost(a + b) <= R.TokenCost(a) + R.TokenCost(b) + 1
  {
  }

  /** Rounding down each of `n` parts never charges more than rounding down once, and at most n - 1 less. */
  lemma {:induction false} FlatPriceOfSplit(tokens: seq<nat>, n: nat)
    requires 0 < n <= |tokens|
    ensures FlatSeparately(tokens, n) <= R.TokenCost(Sum(tokens, n)) <= FlatSeparately(tokens, n) + n - 1
  {
    if n == 1 {
      assert Sum(tokens, 0) == 0 && FlatSeparately(tokens, 0) == 0;
    } else {
      FlatPriceOfSplit(tokens, n - 1);
      FlatSplit(Sum(tokens, n - 1), tokens[n - 1]);
    }
  }

  /** What the flat price ignores of the first `n` records: tokens short of a full hundred. */
  function Ignored(tokens: seq<nat>, n: nat): nat
    requires n <= |tokens|
  {
    if n == 0 then 0 else Ignored(tokens, n - 1) + tokens[n - 1] % 100
  }

  lemma FlatPriceIsHundreds(t: nat)
    ensures R.TokenCost(t) == t / 100
  {
  }

  lemma {:induction false} IgnoredAddsUp(tokens: seq<nat>, n: nat)
    requires n <= |tokens|
    ensures Sum(tokens, n) == 100 * FlatSeparately(tokens, n) + Ignored(tokens, n)
  {
    if 0 < n {
      IgnoredAddsUp(tokens, n - 1);
      FlatPriceIsHundreds(tokens[n - 1]);
    }
  }

  /** Splitting tokens into records undercharges by the full hundreds in what was ignored; so it costs
      the same exactly when less than a hundred tokens were. */
  lemma FlatSplitExactly(tokens: seq<nat>, n: nat)
    requires n <= |tokens|
    ensures R.TokenCost(Sum(tokens, n)) == FlatSeparately(tokens, n) + Ignored(tokens, n) / 100
    ensures R.TokenCost(Sum(tokens, n)) == FlatSeparately(tokens, n) <==> Ignored(tokens, n) < 100
  {
    IgnoredAddsUp(tokens, n);
    FlatPriceIsHundreds(Sum(tokens, n));
  }

  /** The bound is attained: up to 100 parts of 99 tokens are free, but together cost n - 1. */
  lemma {:induction false} FlatSplitAttained(tokens: seq<nat>, n: nat)
    requires 0 < n <= |tokens| && n <= 100 && forall i :: 0 <= i < n ==> tokens[i] == 99
    ensures FlatSeparately(tokens, n) == 0 && R.TokenCost(Sum(tokens, n)) == n - 1
    ensures Sum(tokens, n) == 99 * n
  {
    if n == 1 {
      assert Sum(tokens, 0) == 0 && FlatSeparately(tokens, 0) == 0;
    } else {
      FlatSplitAttained(tokens, n - 1);
    }
  }
}
