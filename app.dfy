/**
 * The calculation engine of the front end (options_calc_frontend/src/App.tsx): days to
 * expiration, simple annualising, the cash-secured-put / short-call metrics, the covered-call
 * metrics, the met-target test of a metric row and the edit rule of the targets form.
 *
 * Prices and premiums are reals. Instants are epoch milliseconds (what Date.getTime()
 * returns) and "now" is a parameter instead of the wall clock.
 */
module App {
  import opened Wrappers

  /** 1000 * 3600 * 24 milliseconds. */
  const MillisPerDay: int := 1000 * 3600 * 24

  /** Shares covered by one option contract. */
  const SharesPerContract: int := 100

  /** JavaScript's Math.round: the nearest integer, a half rounded up. */
  function MathRound(x: real): (r: int)
    ensures r as real - 0.5 <= x < r as real + 0.5
  {
    (x + 0.5).Floor
  }

  /** daysToExpiration: the rounded number of days from today to the expiration, never
      negative. An empty expiration field is None. */
  function DaysToExpiration(today: int, expiration: Option<int>): (r: nat)
    ensures expiration.None? ==> r == 0
    ensures expiration.Some? && expiration.value <= today ==> r == 0
    ensures expiration.Some? && 2 * (expiration.value - today) >= MillisPerDay ==> r > 0
    ensures r > 0 ==>
      && expiration.Some?
      && (r as real - 0.5) * MillisPerDay as real <= (expiration.value - today) as real
      && (expiration.value - today) as real < (r as real + 0.5) * MillisPerDay as real
  {
    match expiration
    case None => 0
    case Some(exp) =>
      var diff := MathRound((exp - today) as real / MillisPerDay as real);
      if diff > 0 then diff else 0
  }

  /** An expiration exactly k days ahead is k days away. */
  lemma DaysToExpirationWholeDays(today: int, k: nat)
    ensures DaysToExpiration(today, Some(today + k * MillisPerDay)) == k
  {
    var x := (k * MillisPerDay) as real / MillisPerDay as real;
    assert x == k as real;
    assert MathRound(x) == k;
  }

  /** A later expiration is never fewer days away. */
  lemma DaysToExpirationMonotone(today: int, e1: int, e2: int)
    requires e1 <= e2
    ensures DaysToExpiration(today, Some(e1)) <= DaysToExpiration(today, Some(e2))
  {
    var x1 := (e1 - today) as real / MillisPerDay as real;
    var x2 := (e2 - today) as real / MillisPerDay as real;
    assert x1 <= x2;
    assert MathRound(x1) <= MathRound(x2);
  }

  /** annualize: a period return scaled linearly to 365 days; 0 for a zero-day period. */
  function Annualize(fraction: real, days: int): (r: real)
    ensures days == 0 ==> r == 0.0
    ensures days != 0 ==> r * days as real == fraction * 365.0
  {
    if days == 0 then 0.0 else fraction * (365.0 / days as real)
  }

  /** Annualising commutes with scaling, so a percentage can be annualised before or
      after multiplying by 100. */
  lemma AnnualizeScales(c: real, fraction: real, days: int)
    ensures Annualize(c * fraction, days) == c * Annualize(fraction, days)
  {
    if days != 0 {
      calc {
        Annualize(c * fraction, days);
        (c * fraction) * (365.0 / days as real);
        c * (fraction * (365.0 / days as real));
      }
    }
  }

  /** `days > 0 ? amount / days : 0`. */
  function PerDay(amount: real, days: nat): (r: real)
    ensures days == 0 ==> r == 0.0
    ensures days > 0 ==> r * days as real == amount
  {
    if days > 0 then amount / days as real else 0.0
  }

  /** `(part / whole) * 100`, unguarded: the caller makes sure whole is not zero. */
  function Percent(part: real, whole: real): (r: real)
    requires whole != 0.0
    ensures r * whole == part * 100.0
  {
    (part / whole) * 100.0
  }

  /** `whole > 0 ? (part / whole) * 100 : 0`. */
  function PercentOf(part: real, whole: real): (r: real)
    ensures whole <= 0.0 ==> r == 0.0
    ensures whole > 0.0 ==> r * whole == part * 100.0
  {
    if whole > 0.0 then Percent(part, whole) else 0.0
  }

  datatype OptionType = Put | Call

  /** What getResults returns for a short put or a short call. */
  datatype Results = Results(
    breakeven: real,
    capitalRequired: real,
    percentReturn: real,
    premiumCollected: real,
    premiumPerDay: real,
    dropFromCurrent: real,
    days: nat,
    annualized: real)

  /** getResults. The source divides by strikePrice (puts) and stockPrice (both kinds)
      without a guard, so those must be non-zero. */
  function GetResults(kind: OptionType, stockPrice: real, strikePrice: real, premium: real,
                      today: int, expiration: Option<int>): (r: Results)
    requires stockPrice != 0.0
    requires kind == Put ==> strikePrice != 0.0
    ensures r.days == DaysToExpiration(today, expiration)
    ensures r.premiumCollected == premium * SharesPerContract as real
    ensures r.days == 0 ==> r.premiumPerDay == 0.0 && r.annualized == 0.0
    ensures r.days > 0 ==> r.premiumPerDay * r.days as real == r.premiumCollected
    ensures r.annualized == Annualize(r.percentReturn, r.days)
    ensures kind == Put ==>
      && r.breakeven + premium == strikePrice
      && r.capitalRequired == strikePrice * 100.0
      && r.percentReturn == Percent(premium, strikePrice)
      && r.dropFromCurrent == Percent(stockPrice - strikePrice, stockPrice)
    ensures kind == Call ==>
      && r.breakeven - premium == strikePrice
      && r.capitalRequired == stockPrice * 100.0
      && r.percentReturn == Percent(premium, stockPrice)
      && r.dropFromCurrent == Percent(strikePrice - stockPrice, stockPrice)
  {
    var shares := SharesPerContract as real;
    var days := DaysToExpiration(today, expiration);
    var premiumCollected := premium * shares;
    // The four figures that depend on the kind, each as the source's ternaries give it.
    var (breakeven, capitalRequired, fraction, dropFromCurrent) :=
      if kind == Put then
        (strikePrice - premium, strikePrice * shares, premium / strikePrice,
         Percent(stockPrice - strikePrice, stockPrice))
      else
        (strikePrice + premium, stockPrice * shares, premium / stockPrice,
         Percent(strikePrice - stockPrice, stockPrice));
    AnnualizeScales(100.0, fraction, days);
    Results(
      breakeven := breakeven,
      capitalRequired := capitalRequired,
      percentReturn := fraction * 100.0,
      premiumCollected := premiumCollected,
      premiumPerDay := PerDay(premiumCollected, days),
      dropFromCurrent := dropFromCurrent,
      days := days,
      annualized := Annualize(fraction, days) * 100.0)
  }

  /** The call branch mirrors the put branch: the drop flips sign, the two breakevens sit
      symmetrically around the strike, and the premium figures do not depend on the kind. */
  lemma PutCallMirror(stockPrice: real, strikePrice: real, premium: real, today: int, expiration: Option<int>)
    requires stockPrice != 0.0 && strikePrice != 0.0
    ensures var p := GetResults(Put, stockPrice, strikePrice, premium, today, expiration);
            var c := GetResults(Call, stockPrice, strikePrice, premium, today, expiration);
            && c.dropFromCurrent == -p.dropFromCurrent
            && p.breakeven + c.breakeven == 2.0 * strikePrice
            && c.capitalRequired * strikePrice == p.capitalRequired * stockPrice
            && c.percentReturn * stockPrice == p.percentReturn * strikePrice
            && c.premiumCollected == p.premiumCollected
            && c.premiumPerDay == p.premiumPerDay
            && c.days == p.days
  {
    var p := GetResults(Put, stockPrice, strikePrice, premium, today, expiration);
    var c := GetResults(Call, stockPrice, strikePrice, premium, today, expiration);
    PercentNegate(stockPrice - strikePrice, stockPrice);
    assert c.percentReturn * stockPrice == premium * 100.0 == p.percentReturn * strikePrice;
  }

  /** A change in the other direction is the same percentage with the sign flipped. */
  lemma PercentNegate(part: real, whole: real)
    requires whole != 0.0
    ensures Percent(-part, whole) == -Percent(part, whole)
  {
    CancelFactor(Percent(-part, whole), -Percent(part, whole), whole);
  }

  lemma CancelFactor(x: real, y: real, k: real)
    requires k != 0.0 && x * k == y * k
    ensures x == y
  {
    assert (x - y) * k == 0.0;
  }

  /** The put of the worked example: stock 99, strike 95, premium 1.25, seven days out. */
  lemma PutExample(today: int)
    ensures var r := GetResults(Put, 99.0, 95.0, 1.25, today, Some(today + 7 * MillisPerDay));
            && r.days == 7
            && r.breakeven == 93.75
            && r.capitalRequired == 9500.0
            && r.premiumCollected == 125.0
            && r.percentReturn == 125.0 / 95.0
            && r.premiumPerDay == 125.0 / 7.0
            && r.dropFromCurrent == 400.0 / 99.0
            && r.annualized == (125.0 / 95.0) * 365.0 / 7.0
  {
    DaysToExpirationWholeDays(today, 7);
  }

  /** The entry price of a covered call: what the trader paid when they own the shares and
      entered a (non-zero) purchase price, otherwise the current quote. */
  function EntryCost(stockPrice: real, ownsShares: bool, purchasePrice: Option<real>): (r: real)
    ensures ownsShares && purchasePrice.Some? && purchasePrice.value != 0.0 ==> r == purchasePrice.value
    ensures !ownsShares || purchasePrice.None? || purchasePrice.value == 0.0 ==> r == stockPrice
    ensures stockPrice != 0.0 ==> r != 0.0
  {
    if ownsShares && purchasePrice.Some? && purchasePrice.value != 0.0 then purchasePrice.value
    else stockPrice
  }

  /** What ccCalculate returns. */
  datatype CoveredCall = CoveredCall(
    breakeven: real,
    options: int,
    pctRiseShare: real,
    premiumCollected: real,
    days: nat,
    premiumPctReturn: real,
    premiumPerDay: real,
    capitalUsed: real,
    annualized: real,
    stockGainsIfEx: real,
    stockGainsPct: real,
    totalGain: real,
    totalPctGain: real)

  /** ccCalculate: None (the source's null) when a required input is zero or the
      expiration is empty; shares is the integer parseInt produced. */
  function CcCalculate(stockPrice: real, shares: int, strike: real, premium: real,
                       today: int, expiration: Option<int>,
                       ownsShares: bool, purchasePrice: Option<real>): (r: Option<CoveredCall>)
    ensures r.None? <==>
      stockPrice == 0.0 || shares == 0 || strike == 0.0 || premium == 0.0 || expiration.None?
    ensures r.Some? ==>
      var c := r.value;
      var entry := EntryCost(stockPrice, ownsShares, purchasePrice);
      && entry != 0.0
      && c.options * SharesPerContract <= shares < (c.options + 1) * SharesPerContract
      && c.premiumCollected == c.options as real * 100.0 * premium
      && c.capitalUsed == shares as real * entry
      && c.breakeven + premium == entry
      && c.days == DaysToExpiration(today, expiration)
  {
    if stockPrice == 0.0 || shares == 0 || strike == 0.0 || premium == 0.0 || expiration.None? then None
    else
      // Math.floor(shares / 100); Dafny's integer division by a positive divisor floors too.
      var options := shares / SharesPerContract;
      var days := DaysToExpiration(today, expiration);
      var entryCost := EntryCost(stockPrice, ownsShares, purchasePrice);
      var capitalUsed := shares as real * entryCost;
      var premiumCollected := options as real * 100.0 * premium;
      var premiumPctReturn := PercentOf(premiumCollected, capitalUsed);
      var stockGainsIfEx := (strike - entryCost) * shares as real;
      var totalGain := stockGainsIfEx + premiumCollected;
      Some(CoveredCall(
        breakeven := entryCost - premium,
        options := options,
        pctRiseShare := Percent(strike - entryCost, entryCost),
        premiumCollected := premiumCollected,
        days := days,
        premiumPctReturn := premiumPctReturn,
        premiumPerDay := PerDay(premiumCollected, days),
        capitalUsed := capitalUsed,
        annualized := if days > 0 then premiumPctReturn * (365.0 / days as real) else 0.0,
        stockGainsIfEx := stockGainsIfEx,
        stockGainsPct := Percent(strike - entryCost, entryCost),
        totalGain := totalGain,
        totalPctGain := PercentOf(totalGain, capitalUsed)))
  }

  /** The return figures of a covered call: the premium and the total gain in percent of
      the capital used (0 when no capital is used), the premium per day (0 for a zero-day
      position), and an annualized figure that, though computed inline, is exactly what
      annualize makes of the premium return. */
  lemma CoveredCallReturns(stockPrice: real, shares: int, strike: real, premium: real,
                           today: int, expiration: Option<int>, ownsShares: bool, purchasePrice: Option<real>)
    requires CcCalculate(stockPrice, shares, strike, premium, today, expiration, ownsShares, purchasePrice).Some?
    ensures var c := CcCalculate(stockPrice, shares, strike, premium, today, expiration, ownsShares, purchasePrice).value;
      && (c.capitalUsed > 0.0 ==>
            c.premiumPctReturn * c.capitalUsed == c.premiumCollected * 100.0
            && c.totalPctGain * c.capitalUsed == c.totalGain * 100.0)
      && (c.capitalUsed <= 0.0 ==> c.premiumPctReturn == 0.0 && c.totalPctGain == 0.0)
      && (c.days == 0 ==> c.premiumPerDay == 0.0 && c.annualized == 0.0)
      && (c.days > 0 ==> c.premiumPerDay * c.days as real == c.premiumCollected)
      && c.annualized == Annualize(c.premiumPctReturn, c.days)
  {
  }

  /** The stock side of a covered call: the gain if the shares are called away at the
      strike, the same gain in percent of the entry price (reported twice, as pctRiseShare
      and stockGainsPct) and of the capital used, and the total with the premium. */
  lemma CoveredCallStockGains(stockPrice: real, shares: int, strike: real, premium: real,
                              today: int, expiration: Option<int>, ownsShares: bool, purchasePrice: Option<real>)
    requires CcCalculate(stockPrice, shares, strike, premium, today, expiration, ownsShares, purchasePrice).Some?
    ensures var c := CcCalculate(stockPrice, shares, strike, premium, today, expiration, ownsShares, purchasePrice).value;
            var entry := EntryCost(stockPrice, ownsShares, purchasePrice);
      && c.stockGainsIfEx == (strike - entry) * shares as real
      && c.stockGainsPct * entry == (strike - entry) * 100.0
      && c.pctRiseShare == c.stockGainsPct
      && c.stockGainsPct * c.capitalUsed == c.stockGainsIfEx * 100.0
      && c.totalGain == c.stockGainsIfEx + c.premiumCollected
  {
  }

  /** Fewer than 100 shares make no contract and collect no premium; 100 make one and
      250 make two. */
  lemma CoveredCallContracts(stockPrice: real, shares: int, strike: real, premium: real,
                             today: int, expiration: Option<int>, ownsShares: bool, purchasePrice: Option<real>)
    requires CcCalculate(stockPrice, shares, strike, premium, today, expiration, ownsShares, purchasePrice).Some?
    ensures var c := CcCalculate(stockPrice, shares, strike, premium, today, expiration, ownsShares, purchasePrice).value;
            && (0 <= shares < 100 ==> c.options == 0 && c.premiumCollected == 0.0)
            && (shares == 100 ==> c.options == 1)
            && (shares == 250 ==> c.options == 2)
            && (shares >= 0 ==> c.options >= 0)
  {
  }

  /** The covered call of the worked example that is not yet owned: stock 100, 100 shares,
      strike 105, premium 2, fourteen days out. */
  lemma CoveredCallExample(today: int)
    ensures var r := CcCalculate(100.0, 100, 105.0, 2.0, today, Some(today + 14 * MillisPerDay), false, None);
            && r.Some?
            && r.value.options == 1
            && r.value.capitalUsed == 10000.0
            && r.value.premiumCollected == 200.0
            && r.value.breakeven == 98.0
            && r.value.premiumPctReturn == 2.0
            && r.value.annualized == 2.0 * 365.0 / 14.0
            && r.value.stockGainsIfEx == 500.0
            && r.value.totalGain == 700.0
            && r.value.totalPctGain == 7.0
  {
    DaysToExpirationWholeDays(today, 14);
  }

  /** The owned covered call of the worked example: the purchase price 90, not the quote
      110, is the cost basis. */
  lemma OwnedCoveredCallExample(today: int)
    ensures var r := CcCalculate(110.0, 200, 115.0, 3.0, today, Some(today + 30 * MillisPerDay), true, Some(90.0));
            && r.Some?
            && r.value.capitalUsed == 18000.0
            && r.value.options == 2
            && r.value.premiumCollected == 600.0
            && r.value.breakeven == 87.0
  {
  }

  /** The highlight rule of MetricRow: nothing is met while the target or the actual value
      is absent; otherwise a higher-is-better metric is met at or above the target and any
      other (higherBetter false or undefined) at or below it. */
  function MeetsTarget(actual: Option<real>, target: Option<real>, higherBetter: Option<bool>): (met: bool)
    ensures met ==> actual.Some? && target.Some?
    ensures actual.Some? && target.Some? && higherBetter == Some(true) ==>
      (met <==> actual.value >= target.value)
    ensures actual.Some? && target.Some? && higherBetter != Some(true) ==>
      (met <==> actual.value <= target.value)
  {
    if actual.Some? && target.Some? then
      if higherBetter == Some(true) then actual.value >= target.value else actual.value <= target.value
    else false
  }

  /** A metric exactly on its target is met, whichever the direction. */
  lemma MeetsTargetAtEquality(x: real, higherBetter: Option<bool>)
    ensures MeetsTarget(Some(x), Some(x), higherBetter)
  {
  }

  /** Raising the actual value keeps a higher-is-better target met; lowering it keeps any
      other target met. */
  lemma MeetsTargetMonotone(a: real, b: real, target: Option<real>, higherBetter: Option<bool>)
    requires a <= b
    ensures higherBetter == Some(true) && MeetsTarget(Some(a), target, higherBetter) ==> MeetsTarget(Some(b), target, higherBetter)
    ensures higherBetter != Some(true) && MeetsTarget(Some(b), target, higherBetter) ==> MeetsTarget(Some(a), target, higherBetter)
  {
  }

  /** The onChange rule of TargetsModal: an empty field (None) deletes the key, a number
      sets it; every other key keeps its target. */
  function EditTarget(targets: map<string, real>, key: string, input: Option<real>): (r: map<string, real>)
    ensures input.None? ==> key !in r
    ensures input.Some? ==> key in r && r[key] == input.value
    ensures forall k :: k != key ==> (k in r <==> k in targets)
    ensures forall k :: k != key && k in r ==> r[k] == targets[k]
  {
    match input
    case None => targets - {key}
    case Some(v) => targets[key := v]
  }

  /** Typing a number into a field that had no target and then clearing it again gives back
      the targets as they were; editing a field twice is the same as editing it once. */
  lemma EditTargetUndo(targets: map<string, real>, key: string, v: real)
    requires key !in targets
    ensures EditTarget(EditTarget(targets, key, Some(v)), key, None) == targets
  {
    var r := EditTarget(EditTarget(targets, key, Some(v)), key, None);
    assert r.Keys == targets.Keys;
  }

  lemma EditTargetIdempotent(targets: map<string, real>, key: string, input: Option<real>)
    ensures EditTarget(EditTarget(targets, key, input), key, input) == EditTarget(targets, key, input)
  {
  }
}
