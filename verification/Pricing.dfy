/** Tiered group pricing: volume discounts, the market floor, and the seasonal factor. */
module Pricing {
  import opened Numbers
  import opened Options
  import opened Rounding

  datatype TierRule = TierRule(min: nat, max: Option<nat>, discount: real)

  const DEFAULT_TIERS: seq<TierRule> := [
    TierRule(3, Some(5), 0.05), TierRule(6, Some(10), 0.10), TierRule(11, Some(20), 0.15), TierRule(21, None, 0.20)]

  /** Groups of three and more have exactly one tier, and smaller ones none; larger groups save more. */
  lemma TierOfSize(n: nat, i: nat)
    requires i < |DEFAULT_TIERS|
    ensures |DEFAULT_TIERS| == 4
    ensures var t := DEFAULT_TIERS[i];
      && (t.min <= n && (t.max.Some? ==> n <= t.max.value) <==>
            n >= 3 && i == if n <= 5 then 0 else if n <= 10 then 1 else if n <= 20 then 2 else 3)
      && t.discount == if i == 0 then 0.05 else if i == 1 then 0.10 else if i == 2 then 0.15 else 0.20
  {
  }

  datatype Flag = TooLow(tier: nat) | AboveAverage(tier: nat)

  datatype Tier = Tier(min: nat, max: Option<nat>, price: real, flags: seq<Flag>)

  /** Prices as the market reports them; zero counts as unknown. */
  datatype Market = Market(minPrice: Option<real>, avgPrice: Option<real>)

  function Known(reported: Option<real>, default: real): real {
    if reported == None || reported.value == 0.0 then default else reported.value
  }

  /** The price no tier goes below: 80% of the market minimum, when that is positive. */
  function Floor(base: real, market: Market): Option<real> {
    var m := Known(market.minPrice, base * 0.7);
    if m > 0.0 then Some(m * 0.8) else None
  }

  /** The unrounded price of a tier: its discount, lifted to the floor. */
  function TierPrice(base: real, market: Market, i: nat): real
    requires i < |DEFAULT_TIERS|
  {
    var discounted := base * (1.0 - DEFAULT_TIERS[i].discount);
    if Floor(base, market).Some? then MaxReal(discounted, Floor(base, market).value) else discounted
  }

  function Rounded(base: real, market: Market, i: nat): real
    requires i < |DEFAULT_TIERS|
  {
    RoundTo(TierPrice(base, market, i), 2)
  }

  predicate BelowFloor(base: real, market: Market, i: nat)
    requires i < |DEFAULT_TIERS|
  {
    Floor(base, market).Some? && base * (1.0 - DEFAULT_TIERS[i].discount) < Floor(base, market).value
  }

  /** The tier costs more than 1.3 times the average, even after being lifted to the floor. */
  predicate FarAboveAverage(base: real, market: Market, i: nat)
    requires i < |DEFAULT_TIERS|
  {
    Known(market.avgPrice, base) > 0.0 && TierPrice(base, market, i) > Known(market.avgPrice, base) * 1.3
  }

  /** One tier of the loop: its price, with the flags it adds. */
  method PriceTier(base: real, market: Market, i: nat, flags: seq<Flag>) returns (price: real, flags': seq<Flag>)
    requires i < |DEFAULT_TIERS|
    ensures price == Rounded(base, market, i)
    ensures forall k :: TooLow(k) in flags' <==> TooLow(k) in flags || (k == i && BelowFloor(base, market, i))
    ensures forall k ::
      AboveAverage(k) in flags' <==> AboveAverage(k) in flags || (k == i && FarAboveAverage(base, market, i))
  {
    var minPrice := Known(market.minPrice, base * 0.7);
    var avgPrice := Known(market.avgPrice, base);
    var tierPrice := base * (1.0 - DEFAULT_TIERS[i].discount);
    flags' := flags;
    if minPrice > 0.0 && tierPrice < minPrice * 0.8 {
      flags' := flags' + [TooLow(i)];
      tierPrice := minPrice * 0.8;
    }
    if avgPrice > 0.0 && tierPrice > avgPrice * 1.3 {
      flags' := flags' + [AboveAverage(i)];
    }
    price := RoundTo(tierPrice, 2);
  }

  /**
   The tiers of a price. One list of flags is shared by all of them, so each tier ends up showing
   every tier's flags: a tier is flagged exactly when its discounted price was below the floor, and
   exactly when its final price is far above the average.
   */
  method CalculateTiers(base: real, market: Market) returns (tiers: seq<Tier>)
    ensures |tiers| == if base <= 0.0 then 0 else |DEFAULT_TIERS|
    ensures forall i | 0 <= i < |tiers| ::
      && tiers[i].min == DEFAULT_TIERS[i].min && tiers[i].max == DEFAULT_TIERS[i].max
      && tiers[i].price == Rounded(base, market, i)
    ensures forall i, k | 0 <= i < |tiers| && 0 <= k < |tiers| ::
      && (TooLow(k) in tiers[i].flags <==> BelowFloor(base, market, k))
      && (AboveAverage(k) in tiers[i].flags <==> FarAboveAverage(base, market, k))
  {
    tiers := [];
    if base <= 0.0 {
      return;
    }
    var flags: seq<Flag> := [];
    for i := 0 to |DEFAULT_TIERS|
      invariant |tiers| == i
      invariant forall k | 0 <= k < i ::
        && tiers[k].min == DEFAULT_TIERS[k].min && tiers[k].max == DEFAULT_TIERS[k].max
        && tiers[k].price == Rounded(base, market, k)
      invariant forall k | 0 <= k < |DEFAULT_TIERS| :: TooLow(k) in flags <==> (k < i && BelowFloor(base, market, k))
      invariant forall k | 0 <= k < |DEFAULT_TIERS| ::
        AboveAverage(k) in flags <==> (k < i && FarAboveAverage(base, market, k))
    {
      var price;
      price, flags := PriceTier(base, market, i, flags);
      tiers := tiers + [Tier(DEFAULT_TIERS[i].min, DEFAULT_TIERS[i].max, price, [])];
    }
    tiers := seq(|tiers|, i requires 0 <= i < |tiers| => tiers[i].(flags := flags));
  }

  lemma TimesMonotone(a: real, b: real, f: real)
    requires a <= b && f >= 0.0
    ensures a * f <= b * f
  {
  }

  /** Main result: before the season, a larger group's rounded price is never higher. */
  lemma TiersGetCheaper(base: real, market: Market, i: nat, j: nat)
    requires base > 0.0 && i < j < |DEFAULT_TIERS|
    ensures Rounded(base, market, i) >= Rounded(base, market, j)
  {
    assert DEFAULT_TIERS[i].discount <= DEFAULT_TIERS[j].discount;
    TimesMonotone(1.0 - DEFAULT_TIERS[j].discount, 1.0 - DEFAULT_TIERS[i].discount, base);
    RoundToMonotone(TierPrice(base, market, j), TierPrice(base, market, i), 2);
  }

  /** No tier is below the rounded floor, nor above the rounded base price when the floor is not. */
  lemma TierBounds(base: real, market: Market, i: nat)
    requires base > 0.0 && i < |DEFAULT_TIERS|
    ensures var price, floor := RoundTo(TierPrice(base, market, i), 2), Floor(base, market);
      && (floor.Some? ==> price >= RoundTo(floor.value, 2))
      && ((floor.Some? ==> floor.value <= base) ==> price <= RoundTo(base, 2))
  {
    var price, floor := TierPrice(base, market, i), Floor(base, market);
    TimesMonotone(1.0 - DEFAULT_TIERS[i].discount, 1.0, base);
    if floor.Some? { RoundToMonotone(floor.value, price, 2); }
    if price <= base { RoundToMonotone(price, base, 2); }
  }

  // ---- seasons ----

  datatype Season = Spring | Summer | Fall | Winter

  function SeasonOf(month: int): Season {
    if 3 <= month <= 5 then Spring else if 6 <= month <= 8 then Summer else if 9 <= month <= 11 then Fall else Winter
  }

  datatype Category = AcInstallation | AcMaintenance | Heating | Kitchen | Electrical | Plumbing | Renovations | Other

  function SeasonFactor(category: Category, season: Season): real {
    match category
    case AcInstallation =>
      (match season case Summer => 1.15 case Spring => 1.05 case Winter => 0.85 case Fall => 0.95)
    case AcMaintenance =>
      (match season case Summer => 1.20 case Spring => 1.10 case Winter => 0.80 case Fall => 0.90)
    case Heating =>
      (match season case Winter => 1.20 case Fall => 1.10 case Summer => 0.80 case Spring => 0.90)
    case Kitchen => (match season case Summer => 1.05 case Winter => 0.95 case _ => 1.0)
    case Renovations => (match season case Spring => 1.10 case Summer => 1.05 case Winter => 0.90 case _ => 1.0)
    case _ => 1.0
  }

  /** The factors by month, from January to December. */
  function FactorsByMonth(category: Category): (factors: seq<real>)
    ensures |factors| == 12
  {
    match category
    case AcInstallation => [0.85, 0.85, 1.05, 1.05, 1.05, 1.15, 1.15, 1.15, 0.95, 0.95, 0.95, 0.85]
    case AcMaintenance => [0.80, 0.80, 1.10, 1.10, 1.10, 1.20, 1.20, 1.20, 0.90, 0.90, 0.90, 0.80]
    case Heating => [1.20, 1.20, 0.90, 0.90, 0.90, 0.80, 0.80, 0.80, 1.10, 1.10, 1.10, 1.20]
    case Kitchen => [0.95, 0.95, 1.0, 1.0, 1.0, 1.05, 1.05, 1.05, 1.0, 1.0, 1.0, 0.95]
    case Renovations => [0.90, 0.90, 1.10, 1.10, 1.10, 1.05, 1.05, 1.05, 1.0, 1.0, 1.0, 0.90]
    case _ => [1.0, 1.0, 1.0, 1.0, 1.0, 1.0, 1.0, 1.0, 1.0, 1.0, 1.0, 1.0]
  }

  /** Seasons and factors together give every month of the year its factor. */
  lemma SeasonsByMonth(category: Category, month: int)
    requires 1 <= month <= 12
    ensures SeasonFactor(category, SeasonOf(month)) == FactorsByMonth(category)[month - 1]
  {
  }

  function Scaled(price: real, factor: real): real { RoundTo(price * factor, 2) }

  /** A seasonal price; a factor of one leaves even the rounding out. */
  function Seasonal(price: real, factor: real): real {
    if factor == 1.0 then price else Scaled(price, factor)
  }

  method MultiplyInPlace(tiers: array<Tier>, factor: real)
    requires factor != 1.0
    modifies tiers
    ensures forall i | 0 <= i < tiers.Length :: tiers[i] == Adjusted(old(tiers[i]), factor)
  {
    for i := 0 to tiers.Length
      invariant forall k | 0 <= k < i :: tiers[k] == Adjusted(old(tiers[k]), factor)
      invariant forall k | i <= k < tiers.Length :: tiers[k] == old(tiers[k])
    {
      tiers[i] := tiers[i].(price := Scaled(tiers[i].price, factor));
    }
  }

  function Adjusted(t: Tier, factor: real): Tier { t.(price := Seasonal(t.price, factor)) }

  method ApplySeasonalAdjustments(tiers: array<Tier>, category: Category, month: int)
    modifies tiers
    ensures forall i | 0 <= i < tiers.Length ::
      tiers[i] == Adjusted(old(tiers[i]), SeasonFactor(category, SeasonOf(month)))
    ensures 1 <= month <= 12 ==> forall i | 0 <= i < tiers.Length ::
      tiers[i] == Adjusted(old(tiers[i]), FactorsByMonth(category)[month - 1])
  {
    if 1 <= month <= 12 { SeasonsByMonth(category, month); }
    var factor := SeasonFactor(category, SeasonOf(month));
    if factor == 1.0 {
      return;
    }
    MultiplyInPlace(tiers, factor);
  }

  lemma SeasonalMonotone(p: real, q: real, f: real)
    requires p <= q && f > 0.0
    ensures Seasonal(p, f) <= Seasonal(q, f)
  {
    TimesMonotone(p, q, f);
    RoundToMonotone(p * f, q * f, 2);
  }

  lemma SeasonalRaises(price: real, f: real)
    requires price >= 0.0 && RoundTo(price, 2) == price && f >= 1.0
    ensures Seasonal(price, f) >= price
  {
    TimesMonotone(1.0, f, price);
    RoundToMonotone(price, price * f, 2);
  }

  lemma FactorsInRange(category: Category, season: Season)
    ensures 0.8 <= SeasonFactor(category, season) <= 1.2
  {
  }

  /** Main result: after the floor, any season and both roundings, larger tiers never cost more. */
  lemma LargerTiersNeverCostMore(base: real, market: Market, category: Category, season: Season, i: nat, j: nat)
    requires base > 0.0 && i < j < |DEFAULT_TIERS|
    ensures Seasonal(Rounded(base, market, i), SeasonFactor(category, season))
         >= Seasonal(Rounded(base, market, j), SeasonFactor(category, season))
  {
    FactorsInRange(category, season);
    TiersGetCheaper(base, market, i, j);
    SeasonalMonotone(Rounded(base, market, j), Rounded(base, market, i), SeasonFactor(category, season));
  }

  lemma RoundToTwice(x: real)
    ensures RoundTo(RoundTo(x, 2), 2) == RoundTo(x, 2)
  {
    var n := HalfEven(x * 100.0);
    assert RoundTo(x, 2) * 100.0 == n as real;
    HalfEvenFixes(n);
  }

  lemma PriceNotNegative(base: real, market: Market, i: nat)
    requires base > 0.0 && i < |DEFAULT_TIERS|
    ensures Rounded(base, market, i) >= 0.0
  {
    TimesMonotone(0.0, 1.0 - DEFAULT_TIERS[i].discount, base);
    RoundToMonotone(0.0, TierPrice(base, market, i), 2);
    assert HalfEven(0.0) == 0;
  }

  lemma SeasonRaises(base: real, market: Market, i: nat, f: real)
    requires base > 0.0 && Floor(base, market).Some? && i < |DEFAULT_TIERS| && f >= 1.0
    ensures Seasonal(Rounded(base, market, i), f) >= RoundTo(Floor(base, market).value, 2)
  {
    TierBounds(base, market, i);
    PriceNotNegative(base, market, i);
    RoundToTwice(TierPrice(base, market, i));
    SeasonalRaises(Rounded(base, market, i), f);
  }

  // ---- the floor after the season ----

  const LAST_TIER := |DEFAULT_TIERS| - 1

  /** Every tier's final price is at least the rounded market floor. */
  ghost predicate FloorKept(base: real, market: Market, category: Category, season: Season)
    requires Floor(base, market).Some?
  {
    forall i: nat | i < |DEFAULT_TIERS| ::
      Seasonal(Rounded(base, market, i), SeasonFactor(category, season)) >= RoundTo(Floor(base, market).value, 2)
  }

  /** The factor leaves the price close enough to the floor to round up to it, in hundredths. */
  predicate StillReaches(price: real, f: real, floor: real) {
    ReachesRounded(price * f * 100.0, HalfEven(floor * 100.0))
  }

  lemma SeasonalReachesIff(price: real, f: real, floor: real)
    requires price >= RoundTo(floor, 2)
    ensures Seasonal(price, f) >= RoundTo(floor, 2) <==> f == 1.0 || StillReaches(price, f, floor)
  {
    RoundToAtLeastIff(price * f, floor);
  }

  lemma LastTierDecides(base: real, market: Market, category: Category, season: Season)
    requires base > 0.0 && Floor(base, market).Some?
    ensures FloorKept(base, market, category, season)
       <==> Seasonal(Rounded(base, market, LAST_TIER), SeasonFactor(category, season))
              >= RoundTo(Floor(base, market).value, 2)
  {
    forall i: nat | i < LAST_TIER
      ensures Seasonal(Rounded(base, market, i), SeasonFactor(category, season))
           >= Seasonal(Rounded(base, market, LAST_TIER), SeasonFactor(category, season))
    {
      LargerTiersNeverCostMore(base, market, category, season, i, LAST_TIER);
    }
  }

  /**
   Main result: the market floor is meant to hold for the prices shown. For a given price and market
   it survives the seasonal step in every tier if and only if there is no seasonal factor, or the
   factor leaves the largest group's price within rounding of the floor.
   */
  lemma FloorKeptIff(base: real, market: Market, category: Category, season: Season)
    requires base > 0.0 && Floor(base, market).Some?
    ensures var f, last := SeasonFactor(category, season), Rounded(base, market, LAST_TIER);
      FloorKept(base, market, category, season) <==> f == 1.0 || StillReaches(last, f, Floor(base, market).value)
  {
    LastTierDecides(base, market, category, season);
    TierBounds(base, market, LAST_TIER);
    SeasonalReachesIff(Rounded(base, market, LAST_TIER), SeasonFactor(category, season), Floor(base, market).value);
  }

  /** A base price of 100 whose market minimum of 125 puts the floor at 100. */
  const TIGHT_MARKET := Market(Some(125.0), None)

  /** Every factor below one takes that price below its floor. */
  lemma TightFloorBroken(category: Category, season: Season)
    requires SeasonFactor(category, season) < 1.0
    ensures Floor(100.0, TIGHT_MARKET) == Some(100.0) && !FloorKept(100.0, TIGHT_MARKET, category, season)
  {
    var f := SeasonFactor(category, season);
    assert TierPrice(100.0, TIGHT_MARKET, LAST_TIER) == 100.0;
    assert HalfEven(10000.0) == 10000;
    assert Rounded(100.0, TIGHT_MARKET, LAST_TIER) == 100.0;
    assert f <= 0.95;
    FloorKeptIff(100.0, TIGHT_MARKET, category, season);
  }

  /** For all prices and markets at once the floor survives exactly when the factor is at least one. */
  lemma FloorSurvivesSeasonIff(category: Category, season: Season)
    ensures SeasonFactor(category, season) >= 1.0 <==>
      forall base: real, market: Market | base > 0.0 && Floor(base, market).Some? ::
        FloorKept(base, market, category, season)
  {
    if SeasonFactor(category, season) >= 1.0 {
      forall base: real, market: Market, i: nat | base > 0.0 && Floor(base, market).Some? && i < |DEFAULT_TIERS|
        ensures Seasonal(Rounded(base, market, i), SeasonFactor(category, season))
             >= RoundTo(Floor(base, market).value, 2)
      {
        SeasonRaises(base, market, i, SeasonFactor(category, season));
      }
    } else {
      TightFloorBroken(category, season);
    }
  }

  /** Eighty per cent of a price, rounded and then scaled by any season, still rounds to its floor. */
  lemma EightyPercentReaches(base: real, p: real, f: real)
    requires base > 0.05 && p >= base * 0.8 - 0.005 && f >= 0.8
    ensures StillReaches(p, f, base * 0.56)
  {
    TimesMonotone(0.8, f, p);
    assert p * f * 100.0 >= base * 64.0 - 0.4;
    HalfEvenNear(base * 0.56 * 100.0);
  }

  lemma EightyPercentNear(base: real)
    ensures RoundTo(base * 0.8, 2) >= base * 0.8 - 0.005
  {
    HalfEvenNear(base * 0.8 * 100.0);
  }

  /**
   Where the market reports no minimum, the floor is 56% of the base price, and no season takes a
   price of more than five hundredths below it.
   */
  lemma UnknownMinimumKeepsFloor(base: real, market: Market, category: Category, season: Season)
    requires base > 0.05 && Known(market.minPrice, 0.0) == 0.0
    ensures Floor(base, market) == Some(base * 0.56) && FloorKept(base, market, category, season)
  {
    assert Known(market.minPrice, base * 0.7) == base * 0.7;
    assert TierPrice(base, market, LAST_TIER) == base * 0.8;
    EightyPercentNear(base);
    FactorsInRange(category, season);
    EightyPercentReaches(base, Rounded(base, market, LAST_TIER), SeasonFactor(category, season));
    FloorKeptIff(base, market, category, season);
  }
}
