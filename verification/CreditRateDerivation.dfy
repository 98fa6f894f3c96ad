/** Vendor price to credit rate at a target margin: `credit-rate-derivation.ts`. */
module CreditRateDerivation {
  import opened Common
  import opened Rounding
  import opened DecimalText

  /** Anchor: what one credit is worth, in micro-CNY. Target margin in basis points. */
  datatype PricingConfig = PricingConfig(anchor: int, bps: int) {
    predicate Valid() { anchor > 0 && 0 <= bps < 10_000 }
    function KeptShare(): int { 10_000 - bps }
  }

  function VendorCostMicroPer1k(unitPrice: string, unitTokens: int): Result<int> {
    if unitTokens <= 0 then Err(Invalid)
    else match DecimalCnyToMicro(unitPrice)
         case Err(e) => Err(e)
         case Ok(micro) => DivRoundHalfUp(micro * 1000, unitTokens)
  }

  function DeriveRateMicroPer1k(cost: int, cfg: PricingConfig): Result<int> {
    if cfg.anchor <= 0 then Err(Invalid)
    else if cfg.bps < 0 || cfg.bps >= 10_000 then Err(Invalid)
    else DivRoundHalfUp(cost * 1_000_000 * 10_000, cfg.anchor * cfg.KeptShare())
  }

  function RateOf(unitPrice: string, unitTokens: int, cfg: PricingConfig): Result<int> {
    match VendorCostMicroPer1k(unitPrice, unitTokens)
    case Err(e) => Err(e)
    case Ok(cost) => DeriveRateMicroPer1k(cost, cfg)
  }

  datatype VendorFourDim = VendorFourDim(
    unitTokens: int, input: string, output: string, cachedInput: Option<string>, cacheWrite: Option<string>)

  datatype FourDimRate = FourDimRate(input: int, output: int, cacheRead: int, cacheWrite: int)

  function DeriveFourDimRate(v: VendorFourDim, cfg: PricingConfig): Result<FourDimRate> {
    var cached := if v.cachedInput.Some? then v.cachedInput.value else v.input;
    var write := if v.cacheWrite.Some? then v.cacheWrite.value else v.input;
    var i := RateOf(v.input, v.unitTokens, cfg);
    var o := RateOf(v.output, v.unitTokens, cfg);
    var r := RateOf(cached, v.unitTokens, cfg);
    var w := RateOf(write, v.unitTokens, cfg);
    if i.Ok? && o.Ok? && r.Ok? && w.Ok?
    then Ok(FourDimRate(i.value, o.value, r.value, w.value))
    else Err(Invalid)
  }

  // ----- One dimension -----

  lemma RateIsHalfUp(cost: nat, cfg: PricingConfig)
    ensures DeriveRateMicroPer1k(cost, cfg).Ok? <==> cfg.Valid()
    ensures cfg.Valid() ==>
      var ak := cfg.anchor * cfg.KeptShare();
      var rate := DeriveRateMicroPer1k(cost, cfg).value;
      ak > 0 && rate >= 0 && IsHalfUp(cost * 10_000_000_000, ak, rate)
  {
    if cfg.Valid() {
      var ak := cfg.anchor * cfg.KeptShare();
      MulLe(1, cfg.KeptShare(), cfg.anchor);
      assert cost * 1_000_000 * 10_000 == cost * 10_000_000_000;
      RoundNat(cost * 10_000_000_000, ak);
    }
  }

  lemma CostIsHalfUp(unitPrice: string, unitTokens: int)
    ensures VendorCostMicroPer1k(unitPrice, unitTokens).Ok? <==> unitTokens > 0 && DecimalCnyToMicro(unitPrice).Ok?
    ensures VendorCostMicroPer1k(unitPrice, unitTokens).Ok? ==>
      var cost := VendorCostMicroPer1k(unitPrice, unitTokens).value;
      cost >= 0 && IsHalfUp(DecimalCnyToMicro(unitPrice).value * 1000, unitTokens, cost)
  {
    if unitTokens > 0 && DecimalCnyToMicro(unitPrice).Ok? {
      RoundNat(DecimalCnyToMicro(unitPrice).value * 1000, unitTokens);
    }
  }

  /** A numeral price is priced exactly when the token unit and the configuration are valid. */
  lemma RateDefined(whole: Digits, fraction: Digits, unitTokens: int, cfg: PricingConfig)
    requires whole != ""
    ensures RateOf(Numeral(whole, fraction), unitTokens, cfg).Ok? <==> unitTokens > 0 && cfg.Valid()
  {
    MicroOfNumeral(whole, fraction);
    CostIsHalfUp(Numeral(whole, fraction), unitTokens);
    if unitTokens > 0 {
      RateIsHalfUp(VendorCostMicroPer1k(Numeral(whole, fraction), unitTokens).value, cfg);
    }
  }

  lemma MicroOfNumeral(whole: Digits, fraction: Digits)
    requires whole != ""
    ensures AllDigits(whole + fraction)
    ensures DecimalCnyToMicro(Numeral(whole, fraction)).Ok?
    ensures IsHalfUp(Value(whole + fraction) * 1_000_000, Pow10(|fraction|),
                     DecimalCnyToMicro(Numeral(whole, fraction)).value)
  {
    PriceTextExact("", whole, fraction, "");
    assert "" + Numeral(whole, fraction) + "" == Numeral(whole, fraction);
  }

  /** |rate - v*10^19 / (d*u*ak)| <= 1/2 + (1/2 + 500/u) * 10^10/ak, over the common denominator 2*d*u*ak. */
  predicate WithinThreeRoundings(v: nat, d: nat, u: int, ak: int, rate: int) {
    Abs(d * ((u * ak) * (2 * rate)) - 20_000_000_000_000_000_000 * v) <= d * (u * ak + 10_000_000_000 * (u + 1000))
  }

  /** From the price text to the rate, all three roundings together: a price of v/d CNY per u tokens (v the
      digits, d the power of ten of the fraction) has exact rate v*10^19 / (d*u*anchor*(10000 - bps)). */
  lemma RateErrorBound(whole: Digits, fraction: Digits, unitTokens: int, cfg: PricingConfig)
    requires whole != "" && unitTokens > 0 && cfg.Valid()
    ensures AllDigits(whole + fraction)
    ensures RateOf(Numeral(whole, fraction), unitTokens, cfg).Ok?
    ensures
      WithinThreeRoundings(Value(whole + fraction), Pow10(|fraction|), unitTokens, cfg.anchor * cfg.KeptShare(),
                           RateOf(Numeral(whole, fraction), unitTokens, cfg).value)
  {
    MicroOfNumeral(whole, fraction);
    RateDefined(whole, fraction, unitTokens, cfg);
    CostIsHalfUp(Numeral(whole, fraction), unitTokens);
    var cost := VendorCostMicroPer1k(Numeral(whole, fraction), unitTokens).value;
    RateIsHalfUp(cost, cfg);
    var rate := RateOf(Numeral(whole, fraction), unitTokens, cfg).value;
    ThreeRoundings(Value(whole + fraction), Pow10(|fraction|),
      DecimalCnyToMicro(Numeral(whole, fraction)).value, unitTokens, cost, cfg.anchor * cfg.KeptShare(), rate);
  }

  lemma ThreeRoundings(v: nat, d: nat, micro: nat, u: nat, cost: nat, ak: nat, rate: nat)
    requires IsHalfUp(v * 1_000_000, d, micro)
    requires IsHalfUp(micro * 1000, u, cost)
    requires IsHalfUp(cost * 10_000_000_000, ak, rate)
    ensures WithinThreeRoundings(v, d, u, ak, rate)
  {
    var x := (u * ak) * (2 * rate);
    var bound := u * ak + 10_000_000_000 * u;
    TwoRoundings(micro, u, cost, ak, rate);
    PriceRounding(d, x, bound, micro, v);
    assert u * ak + 10_000_000_000 * (u + 1000) == bound + 10_000_000_000_000;
  }

  lemma TwoRoundings(micro: nat, u: nat, cost: nat, ak: nat, rate: nat)
    requires IsHalfUp(micro * 1000, u, cost)
    requires IsHalfUp(cost * 10_000_000_000, ak, rate)
    ensures Abs((u * ak) * (2 * rate) - 20_000_000_000_000 * micro) <= u * ak + 10_000_000_000 * u
  {
    var x, scaled: int := u * (2 * (rate * ak)), 20_000_000_000 * cost;
    AbsScale(2 * (rate * ak) - scaled, ak, u);
    Distribute(u, 2 * (rate * ak), -scaled);
    Reassociate(u, ak, rate);
    PullOut(u, cost, 20_000_000_000);
    Chain(x, cost * u, u * ak, micro, u);
  }

  lemma PullOut(u: int, c: int, k: int)
    ensures u * (k * c) == k * (c * u) && u * -(k * c) == -(k * (c * u))
  {
  }

  /** Two bounded errors in a row; only linear facts are left. */
  lemma Chain(x: int, cu: int, uak: int, micro: int, u: int)
    requires Abs(x - 20_000_000_000 * cu) <= uak
    requires Abs(2 * cu - 2000 * micro) <= u
    ensures Abs(x - 20_000_000_000_000 * micro) <= uak + 10_000_000_000 * u
  {
  }

  lemma PriceRounding(d: nat, x: int, bound: int, micro: nat, v: nat)
    requires Abs(x - 20_000_000_000_000 * micro) <= bound
    requires IsHalfUp(v * 1_000_000, d, micro)
    ensures Abs(d * x - 20_000_000_000_000_000_000 * v) <= d * (bound + 10_000_000_000_000)
  {
    var scaled: int := 20_000_000_000_000 * micro;
    AbsScale(x - scaled, bound, d);
    Distribute(d, x, -scaled);
    Distribute(d, bound, 10_000_000_000_000);
    PullOut(d, micro, 20_000_000_000_000);
    LastChain(d * x, micro * d, v, d * bound, d);
  }

  lemma LastChain(dx: int, md: int, v: nat, db: int, d: nat)
    requires Abs(dx - 20_000_000_000_000 * md) <= db
    requires Abs(2 * md - 2_000_000 * v) <= d
    ensures Abs(dx - 20_000_000_000_000_000_000 * v) <= db + 10_000_000_000_000 * d
  {
  }

  lemma Reassociate(u: int, ak: int, rate: int)
    ensures (u * ak) * (2 * rate) == u * (2 * (rate * ak))
  {
  }

  /** A dearer vendor price or a higher target margin never lowers the rate; a dearer credit never raises it. */
  lemma RateMonotone(whole1: Digits, fraction1: Digits, cfg1: PricingConfig,
                     whole2: Digits, fraction2: Digits, cfg2: PricingConfig, unitTokens: int)
    requires whole1 != "" && whole2 != "" && unitTokens > 0 && cfg1.Valid() && cfg2.Valid()
    requires AllDigits(whole1 + fraction1) && AllDigits(whole2 + fraction2)
    requires Value(whole1 + fraction1) * Pow10(|fraction2|) <= Value(whole2 + fraction2) * Pow10(|fraction1|)
    requires cfg1.bps <= cfg2.bps && cfg1.anchor >= cfg2.anchor
    ensures
      var r1 := RateOf(Numeral(whole1, fraction1), unitTokens, cfg1);
      var r2 := RateOf(Numeral(whole2, fraction2), unitTokens, cfg2);
      r1.Ok? && r2.Ok? && r1.value <= r2.value
  {
    var t1, t2 := Numeral(whole1, fraction1), Numeral(whole2, fraction2);
    MicroMonotone(whole1, fraction1, whole2, fraction2);
    CostMonotone(t1, t2, unitTokens);
    RateMonotoneInCost(VendorCostMicroPer1k(t1, unitTokens).value, cfg1,
                       VendorCostMicroPer1k(t2, unitTokens).value, cfg2);
  }

  lemma MicroMonotone(whole1: Digits, fraction1: Digits, whole2: Digits, fraction2: Digits)
    requires whole1 != "" && whole2 != ""
    requires AllDigits(whole1 + fraction1) && AllDigits(whole2 + fraction2)
    requires Value(whole1 + fraction1) * Pow10(|fraction2|) <= Value(whole2 + fraction2) * Pow10(|fraction1|)
    ensures
      var m1 := DecimalCnyToMicro(Numeral(whole1, fraction1));
      var m2 := DecimalCnyToMicro(Numeral(whole2, fraction2));
      m1.Ok? && m2.Ok? && m1.value <= m2.value
  {
    MicroOfNumeral(whole1, fraction1);
    MicroOfNumeral(whole2, fraction2);
    var v1, v2, d1, d2 := Value(whole1 + fraction1), Value(whole2 + fraction2), Pow10(|fraction1|), Pow10(|fraction2|);
    Reorder(v1, 1_000_000, d2);
    Reorder(v2, 1_000_000, d1);
    HalfUpMonotone(v1 * 1_000_000, d1, DecimalCnyToMicro(Numeral(whole1, fraction1)).value,
                   v2 * 1_000_000, d2, DecimalCnyToMicro(Numeral(whole2, fraction2)).value);
  }

  lemma Reorder(v: int, m: int, d: int)
    ensures v * m * d == m * (v * d)
  {
  }

  lemma CostMonotone(price1: string, price2: string, unitTokens: int)
    requires unitTokens > 0 && DecimalCnyToMicro(price1).Ok? && DecimalCnyToMicro(price2).Ok?
    requires DecimalCnyToMicro(price1).value <= DecimalCnyToMicro(price2).value
    ensures
      var c1 := VendorCostMicroPer1k(price1, unitTokens);
      var c2 := VendorCostMicroPer1k(price2, unitTokens);
      c1.Ok? && c2.Ok? && 0 <= c1.value <= c2.value
  {
    CostIsHalfUp(price1, unitTokens);
    CostIsHalfUp(price2, unitTokens);
    var m1, m2 := DecimalCnyToMicro(price1).value * 1000, DecimalCnyToMicro(price2).value * 1000;
    MulLe(m1, m2, unitTokens);
    HalfUpMonotone(m1, unitTokens, VendorCostMicroPer1k(price1, unitTokens).value,
                   m2, unitTokens, VendorCostMicroPer1k(price2, unitTokens).value);
  }

  lemma RateMonotoneInCost(c1: nat, cfg1: PricingConfig, c2: nat, cfg2: PricingConfig)
    requires c1 <= c2 && cfg1.Valid() && cfg2.Valid()
    requires cfg1.bps <= cfg2.bps && cfg1.anchor >= cfg2.anchor
    ensures
      var r1 := DeriveRateMicroPer1k(c1, cfg1);
      var r2 := DeriveRateMicroPer1k(c2, cfg2);
      r1.Ok? && r2.Ok? && r1.value <= r2.value
  {
    RateIsHalfUp(c1, cfg1);
    RateIsHalfUp(c2, cfg2);
    var ak1, ak2 := Denominator(cfg1), Denominator(cfg2);
    MulLe(cfg2.anchor, cfg1.anchor, cfg2.KeptShare());
    MulLe(cfg2.KeptShare(), cfg1.KeptShare(), cfg1.anchor);
    var n1, n2 := c1 * 10_000_000_000, c2 * 10_000_000_000;
    MulLe(n1, n2, ak2);
    MulLe(ak2, ak1, n2);
    HalfUpMonotone(n1, ak1, DeriveRateMicroPer1k(c1, cfg1).value, n2, ak2, DeriveRateMicroPer1k(c2, cfg2).value);
  }

  /** An undeclared cache price falls back to the input price, which prices the cache at least as high
      as any declaration not above the input price would. */
  lemma CacheFallbackNeverCheaper(v: VendorFourDim, cfg: PricingConfig, inWhole: Digits, inFraction: Digits,
                                  outWhole: Digits, outFraction: Digits, whole: Digits, fraction: Digits)
    requires v.unitTokens > 0 && cfg.Valid() && inWhole != "" && outWhole != "" && whole != ""
    requires v.input == Numeral(inWhole, inFraction) && v.output == Numeral(outWhole, outFraction)
    requires v.cachedInput.None? && v.cacheWrite.None?
    requires AllDigits(whole + fraction) && AllDigits(inWhole + inFraction)
    requires Value(whole + fraction) * Pow10(|inFraction|) <= Value(inWhole + inFraction) * Pow10(|fraction|)
    ensures
      var declared := Some(Numeral(whole, fraction));
      var fallback := DeriveFourDimRate(v, cfg);
      var priced := DeriveFourDimRate(v.(cachedInput := declared, cacheWrite := declared), cfg);
      && fallback.Ok? && priced.Ok?
      && fallback.value.cacheRead == fallback.value.cacheWrite == fallback.value.input
      && priced.value.cacheRead <= fallback.value.cacheRead
      && priced.value.cacheWrite <= fallback.value.cacheWrite
      && priced.value.input == fallback.value.input
      && priced.value.output == fallback.value.output
  {
    RateMonotone(whole, fraction, cfg, inWhole, inFraction, cfg, v.unitTokens);
    RateDefined(outWhole, outFraction, v.unitTokens, cfg);
  }

  // ----- Four dimensions -----

  /** A price as declared: digits, and perhaps a point and more digits. */
  datatype Numerals = Numerals(whole: Digits, fraction: Digits) {
    function Text(): string { Numeral(whole, fraction) }
  }

  type Declared = n: Numerals | n.whole != "" witness Numerals("0", "")

  /** The rate is the one of this price, within three roundings of what the price is worth. */
  predicate RatedBy(n: Declared, unitTokens: int, cfg: PricingConfig, rate: int)
    requires unitTokens > 0 && cfg.Valid()
  {
    RateErrorBound(n.whole, n.fraction, unitTokens, cfg);
    && RateOf(n.Text(), unitTokens, cfg) == Ok(rate)
    && WithinThreeRoundings(Value(n.whole + n.fraction), Pow10(|n.fraction|), unitTokens,
                            cfg.anchor * cfg.KeptShare(), rate)
  }

  function TextOf(n: Option<Declared>): Option<string> { if n.Some? then Some(n.value.Text()) else None }

  /** Each of the four rates is that of its own price; a cache price not declared is the input price. */
  lemma FourDimExactly(unitTokens: int, cfg: PricingConfig, input: Declared, output: Declared,
                       cachedInput: Option<Declared>, cacheWrite: Option<Declared>)
    ensures
      var v := VendorFourDim(unitTokens, input.Text(), output.Text(), TextOf(cachedInput), TextOf(cacheWrite));
      var r := DeriveFourDimRate(v, cfg);
      && (r.Ok? <==> unitTokens > 0 && cfg.Valid())
      && (r.Ok? ==>
            && RatedBy(input, unitTokens, cfg, r.value.input)
            && RatedBy(output, unitTokens, cfg, r.value.output)
            && RatedBy(if cachedInput.Some? then cachedInput.value else input, unitTokens, cfg, r.value.cacheRead)
            && RatedBy(if cacheWrite.Some? then cacheWrite.value else input, unitTokens, cfg, r.value.cacheWrite))
  {
    var cached := if cachedInput.Some? then cachedInput.value else input;
    var write := if cacheWrite.Some? then cacheWrite.value else input;
    RateDefined(input.whole, input.fraction, unitTokens, cfg);
    RateDefined(output.whole, output.fraction, unitTokens, cfg);
    RateDefined(cached.whole, cached.fraction, unitTokens, cfg);
    RateDefined(write.whole, write.fraction, unitTokens, cfg);
    if unitTokens > 0 && cfg.Valid() {
      RateErrorBound(input.whole, input.fraction, unitTokens, cfg);
      RateErrorBound(output.whole, output.fraction, unitTokens, cfg);
      RateErrorBound(cached.whole, cached.fraction, unitTokens, cfg);
      RateErrorBound(write.whole, write.fraction, unitTokens, cfg);
    }
    hide RateOf, WithinThreeRoundings, Value, Pow10, Numeral;
  }

  /** Whatever the texts: there are rates exactly when both prices, and each cache price declared, are numerals. */
  lemma FourDimDefined(v: VendorFourDim, cfg: PricingConfig)
    ensures DeriveFourDimRate(v, cfg).Ok? <==>
      && v.unitTokens > 0 && cfg.Valid()
      && DecimalCnyToMicro(v.input).Ok? && DecimalCnyToMicro(v.output).Ok?
      && (v.cachedInput.Some? ==> DecimalCnyToMicro(v.cachedInput.value).Ok?)
      && (v.cacheWrite.Some? ==> DecimalCnyToMicro(v.cacheWrite.value).Ok?)
  {
    RateOfDefined(v.input, v.unitTokens, cfg);
    RateOfDefined(v.output, v.unitTokens, cfg);
    if v.cachedInput.Some? { RateOfDefined(v.cachedInput.value, v.unitTokens, cfg); }
    if v.cacheWrite.Some? { RateOfDefined(v.cacheWrite.value, v.unitTokens, cfg); }
    hide RateOf, DecimalCnyToMicro;
  }

  lemma RateOfDefined(price: string, unitTokens: int, cfg: PricingConfig)
    ensures RateOf(price, unitTokens, cfg).Ok? <==> DecimalCnyToMicro(price).Ok? && unitTokens > 0 && cfg.Valid()
  {
    if DecimalCnyToMicro(price).Ok? && unitTokens > 0 {
      CostIsHalfUp(price, unitTokens);
      var cost := VendorCostMicroPer1k(price, unitTokens).value;
      if cfg.Valid() { RateIsHalfUp(cost, cfg); }
    }
  }

  // ----- The mix: any number of models and dimensions used in any proportions -----

  /** Usage `tokens` (in thousands) of one dimension whose vendor cost is `cost` micro-CNY per 1K. */
  datatype Usage = Usage(tokens: nat, cost: nat)

  function Rate(cost: nat, cfg: PricingConfig): int
    requires cfg.Valid()
  {
    RateIsHalfUp(cost, cfg);
    DeriveRateMicroPer1k(cost, cfg).value
  }

  /** Revenue kept minus cost, scaled by 10^10: zero means the margin is exactly the target. */
  function Surplus(mix: seq<Usage>, cfg: PricingConfig): int
    requires cfg.Valid()
  {
    if mix == [] then 0
    else mix[0].tokens * Drift(mix[0].cost, cfg) + Surplus(mix[1..], cfg)
  }

  function Drift(cost: nat, cfg: PricingConfig): int
    requires cfg.Valid()
  {
    Rate(cost, cfg) * (cfg.anchor * cfg.KeptShare()) - 10_000_000_000 * cost
  }

  function TotalTokens(mix: seq<Usage>): nat {
    if mix == [] then 0 else mix[0].tokens + TotalTokens(mix[1..])
  }

  /** Whatever the mix, the total stays within half a micro-credit per 1K of the target margin. */
  lemma {:induction false} MixMarginBound(mix: seq<Usage>, cfg: PricingConfig)
    requires cfg.Valid()
    ensures 2 * Abs(Surplus(mix, cfg)) <= cfg.anchor * cfg.KeptShare() * TotalTokens(mix)
  {
    if mix != [] {
      MixMarginBound(mix[1..], cfg);
      RateIsHalfUp(mix[0].cost, cfg);
      MixStep(cfg.anchor * cfg.KeptShare(), mix[0].tokens, Drift(mix[0].cost, cfg),
              TotalTokens(mix[1..]), Surplus(mix[1..], cfg));
    }
  }

  lemma MixStep(ak: nat, tokens: nat, drift: int, restTokens: nat, rest: int)
    requires Abs(2 * drift) <= ak && 2 * Abs(rest) <= ak * restTokens
    ensures 2 * Abs(tokens * drift + rest) <= ak * (tokens + restTokens)
  {
    AbsScale(2 * drift, ak, tokens);
    Distribute(ak, tokens, restTokens);
    Distribute(tokens, drift, drift);
  }

  /** The total margin is the target on every mix of a set of dimension costs exactly when each cost*10^10 is
      a multiple of anchor*(10000 - bps). */
  lemma MixOnTargetExact(costs: seq<nat>, cfg: PricingConfig)
    requires cfg.Valid()
    ensures (forall mix: seq<Usage> :: UsesOnly(mix, costs) ==> Surplus(mix, cfg) == 0)
       <==> (forall i :: 0 <= i < |costs| ==> ExactlyDivides(costs[i], cfg))
  {
    if forall i :: 0 <= i < |costs| ==> ExactlyDivides(costs[i], cfg) {
      forall mix: seq<Usage> | UsesOnly(mix, costs) ensures Surplus(mix, cfg) == 0 {
        ExactMixHasNoSurplus(mix, costs, cfg);
      }
    } else {
      var i :| 0 <= i < |costs| && !ExactlyDivides(costs[i], cfg);
      DriftExact(costs[i], cfg);
      var mix := [Usage(1, costs[i])];
      assert mix[1..] == [];
      assert UsesOnly(mix, costs) && Surplus(mix, cfg) == Drift(costs[i], cfg);
    }
  }

  function Charged(mix: seq<Usage>, cfg: PricingConfig): int
    requires cfg.Valid()
  {
    if mix == [] then 0 else mix[0].tokens * Rate(mix[0].cost, cfg) + Charged(mix[1..], cfg)
  }

  function TotalCost(mix: seq<Usage>): int {
    if mix == [] then 0 else mix[0].tokens * mix[0].cost + TotalCost(mix[1..])
  }

  /** Two mixes charge the same for each unit of cost: the same margin. */
  predicate SameMargin(m: seq<Usage>, n: seq<Usage>, cfg: PricingConfig)
    requires cfg.Valid()
  {
    Charged(m, cfg) * TotalCost(n) == Charged(n, cfg) * TotalCost(m)
  }

  predicate InProportion(c: nat, d: nat, cfg: PricingConfig)
    requires cfg.Valid()
  {
    Rate(c, cfg) * d == Rate(d, cfg) * c
  }

  /** The documented claim that the margin does not depend on the mix holds for a set of dimension costs
      exactly when their rounded rates are in the proportion of the costs. */
  lemma MixIndependenceExact(costs: seq<nat>, cfg: PricingConfig)
    requires cfg.Valid()
    ensures (forall m, n :: UsesOnly(m, costs) && UsesOnly(n, costs) ==> SameMargin(m, n, cfg))
       <==> (forall c, d :: c in costs && d in costs ==> InProportion(c, d, cfg))
  {
    hide Rate;
    if forall c, d :: c in costs && d in costs ==> InProportion(c, d, cfg) {
      forall m, n | UsesOnly(m, costs) && UsesOnly(n, costs) ensures SameMargin(m, n, cfg) {
        ProportionalMixes(m, n, costs, cfg);
      }
    } else {
      var c, d :| c in costs && d in costs && !InProportion(c, d, cfg);
      SingleUse(c, cfg);
      SingleUse(d, cfg);
      assert UsesOnly([Usage(1, c)], costs) && UsesOnly([Usage(1, d)], costs);
      assert !SameMargin([Usage(1, c)], [Usage(1, d)], cfg);
    }
  }

  lemma SingleUse(cost: nat, cfg: PricingConfig)
    requires cfg.Valid()
    ensures Charged([Usage(1, cost)], cfg) == Rate(cost, cfg) && TotalCost([Usage(1, cost)]) == cost
  {
    hide Rate;
    assert [Usage(1, cost)][1..] == [];
  }

  lemma {:induction false} ProportionalUse(cost: nat, n: seq<Usage>, costs: seq<nat>, cfg: PricingConfig)
    requires cfg.Valid() && UsesOnly(n, costs) && cost in costs
    requires forall c, d :: c in costs && d in costs ==> InProportion(c, d, cfg)
    ensures Rate(cost, cfg) * TotalCost(n) == Charged(n, cfg) * cost
  {
    hide Rate;
    if n != [] {
      ProportionalUse(cost, n[1..], costs, cfg);
      assert InProportion(cost, n[0].cost, cfg);
      CrossStep(n[0].tokens, Rate(n[0].cost, cfg), n[0].cost, Charged(n[1..], cfg), TotalCost(n[1..]),
                Rate(cost, cfg), cost);
    }
  }

  lemma {:induction false} ProportionalMixes(m: seq<Usage>, n: seq<Usage>, costs: seq<nat>, cfg: PricingConfig)
    requires cfg.Valid() && UsesOnly(m, costs) && UsesOnly(n, costs)
    requires forall c, d :: c in costs && d in costs ==> InProportion(c, d, cfg)
    ensures SameMargin(m, n, cfg)
  {
    hide Rate;
    if m != [] {
      ProportionalMixes(m[1..], n, costs, cfg);
      ProportionalUse(m[0].cost, n, costs, cfg);
      CrossStep(m[0].tokens, Rate(m[0].cost, cfg), m[0].cost, Charged(m[1..], cfg), TotalCost(m[1..]),
                Charged(n, cfg), TotalCost(n));
    }
  }

  lemma CrossStep(t: nat, r: int, c: int, rest: int, restCost: int, r1: int, c1: int)
    requires r * c1 == r1 * c && rest * c1 == r1 * restCost
    ensures (t * r + rest) * c1 == r1 * (t * c + restCost)
  {
    assert (t * r) * c1 == t * (r * c1) == t * (r1 * c) == r1 * (t * c);
    Distribute(c1, t * r, rest);
    Distribute(r1, t * c, restCost);
  }

  /** At an anchor of 0.2 CNY and a target of 70%, a dimension of cost 3 keeps exactly the target and one of
      cost 1 does not, so the margin moves with the mix of the two. */
  lemma MarginMovesWithMix()
    ensures
      var cfg := PricingConfig(200_000, 7_000);
      cfg.Valid() && Surplus([Usage(1, 3)], cfg) == 0 && Surplus([Usage(1, 1)], cfg) == 200_000_000
      && !SameMargin([Usage(1, 3)], [Usage(1, 1)], cfg)
  {
    var cfg := PricingConfig(200_000, 7_000);
    assert cfg.anchor * cfg.KeptShare() == 600_000_000;
    assert DeriveRateMicroPer1k(3, cfg) == Ok(50) && DeriveRateMicroPer1k(1, cfg) == Ok(17);
    assert [Usage(1, 3)][1..] == [] && [Usage(1, 1)][1..] == [];
    assert Drift(3, cfg) == 0 && Drift(1, cfg) == 200_000_000;
    SingleUse(3, cfg);
    SingleUse(1, cfg);
  }

  predicate ExactlyDivides(cost: nat, cfg: PricingConfig)
    requires cfg.Valid()
  {
    cost * 10_000_000_000 % Denominator(cfg) == 0
  }

  function Denominator(cfg: PricingConfig): (ak: int)
    requires cfg.Valid()
    ensures ak > 0
  {
    RateIsHalfUp(0, cfg);
    cfg.anchor * cfg.KeptShare()
  }

  predicate UsesOnly(mix: seq<Usage>, costs: seq<nat>) {
    forall i :: 0 <= i < |mix| ==> mix[i].cost in costs
  }

  lemma DriftExact(cost: nat, cfg: PricingConfig)
    requires cfg.Valid()
    ensures Drift(cost, cfg) == 0 <==> ExactlyDivides(cost, cfg)
  {
    RateIsHalfUp(cost, cfg);
    var n, ak, rate := cost * 10_000_000_000, Denominator(cfg), DeriveRateMicroPer1k(cost, cfg).value;
    if rate * ak == n {
      ModOfMultiple(rate, ak);
    }
    if n % ak == 0 {
      var q := n / ak;
      assert n == q * ak;
      HalfUpMonotone(n, ak, q, n, ak, rate);
      HalfUpMonotone(n, ak, rate, n, ak, q);
    }
  }

  lemma {:induction false} ExactMixHasNoSurplus(mix: seq<Usage>, costs: seq<nat>, cfg: PricingConfig)
    requires cfg.Valid() && UsesOnly(mix, costs)
    requires forall i :: 0 <= i < |costs| ==> ExactlyDivides(costs[i], cfg)
    ensures Surplus(mix, cfg) == 0
  {
    if mix != [] {
      ExactMixHasNoSurplus(mix[1..], costs, cfg);
      DriftExact(mix[0].cost, cfg);
    }
  }
}
