/**
 * The pure parts of the back end's request handlers
 * (options_calc_backend/put_calculator/views.py): the validation and formulas of
 * calculate_put_metrics and the strike and expiration selection of
 * get_option_contracts_alpaca, over values already parsed and fetched.
 *
 * Dates are day numbers, so `(a - b).days` is a subtraction; "today" is a parameter.
 */
module Views {
  import opened Wrappers
  import opened Sequences
  import App

  /** An error answer: the HTTP status and the text of the body's "error" field. */
  datatype ApiError = ApiError(status: int, message: string)

  // ---------------------------------------------------------------------------
  // calculate_put_metrics

  /** The keys calculate_put_metrics demands, in the order it reports them. */
  const RequiredParams: seq<string> :=
    ["ticker_symbol", "stock_price", "strike_price", "option_premium", "expiration_date_str"]

  /** `param not in request.data`. */
  function Absent(present: set<string>): string -> bool {
    p => p !in present
  }

  /** The required keys the request body lacks, in the order of RequiredParams. */
  function MissingParams(present: set<string>): (r: seq<string>)
    ensures forall p :: p in r <==> p in RequiredParams && p !in present
    ensures |r| <= |RequiredParams|
  {
    Filter(RequiredParams, Absent(present))
  }

  /** The missing keys are reported in the order they are listed. */
  lemma MissingParamsInOrder(present: set<string>, i: nat, j: nat)
    requires i < j < |RequiredParams|
    requires RequiredParams[i] !in present && RequiredParams[j] !in present
    ensures exists x, y :: 0 <= x < y < |MissingParams(present)|
                           && MissingParams(present)[x] == RequiredParams[i]
                           && MissingParams(present)[y] == RequiredParams[j]
  {
    assert MissingParams(present) == Filter(RequiredParams, Absent(present));
    FilterKeepsOrder(RequiredParams, Absent(present), i, j);
  }

  /** `sep.join(parts)`. */
  function Join(parts: seq<string>, sep: string): (r: string)
    ensures parts == [] ==> r == ""
    ensures |parts| > 0 ==> parts[0] <= r
    ensures |parts| > 1 ==> parts[0] + sep <= r
    ensures |parts| == 1 ==> r == parts[0]
  {
    if parts == [] then ""
    else if |parts| == 1 then parts[0]
    else parts[0] + sep + Join(parts[1..], sep)
  }

  /** Joining two non-empty lists puts one separator between their joins: with the
      one-element case this fixes the message to every name in order, one separator
      between neighbours. */
  lemma {:induction false} JoinAppend(a: seq<string>, b: seq<string>, sep: string)
    requires a != [] && b != []
    ensures Join(a + b, sep) == Join(a, sep) + sep + Join(b, sep)
  {
    var ab := a + b;
    assert ab[0] == a[0] && |ab| > 1;
    if |a| == 1 {
      assert ab[1..] == b;
    } else {
      assert ab[1..] == a[1..] + b;
      var tail, joinB := Join(a[1..], sep), Join(b, sep);
      JoinAppend(a[1..], b, sep);
      calc {
        Join(ab, sep);
        a[0] + sep + Join(a[1..] + b, sep);
        a[0] + sep + (tail + sep + joinB);
        (a[0] + sep + tail) + sep + joinB;
        Join(a, sep) + sep + joinB;
      }
    }
  }

  function MissingParamsError(missing: seq<string>): ApiError {
    ApiError(400, "Missing required parameters: " + Join(missing, ", "))
  }

  const PastExpirationError: ApiError := ApiError(400, "Expiration date cannot be in the past.")

  /** number_of_contracts: absent (one contract), text int() rejects, or a count. */
  datatype ContractsField = NotGiven | Unparsable | Given(count: int)

  /** The request body. `present` is the set of keys it carries. The numeric fields and
      the expiration date are what float(), int() and strptime make of their text, None
      where the conversion raises ValueError; they are read only once every required key is
      present. */
  datatype PutRequest = PutRequest(
    present: set<string>,
    tickerSymbol: string,
    stockPrice: Option<real>,
    strikePrice: Option<real>,
    optionPremium: Option<real>,
    numberOfContracts: ContractsField,
    expirationDate: Option<int>,
    expirationDateStr: string)

  /** Every conversion in the try block succeeds. */
  predicate WellFormed(req: PutRequest) {
    req.stockPrice.Some? && req.strikePrice.Some? && req.optionPremium.Some?
    && !req.numberOfContracts.Unparsable? && req.expirationDate.Some?
  }

  /** The number of contracts a well-formed request asks for. */
  function ContractCount(field: ContractsField): (n: int)
    requires !field.Unparsable?
    ensures field.NotGiven? ==> n == 1
    ensures field.Given? ==> n == field.count
  {
    if field.Given? then field.count else 1
  }

  const InvalidInputError: ApiError := ApiError(400, "Invalid input format for numeric or date fields.")

  /** The success body of calculate_put_metrics. */
  datatype PutMetrics = PutMetrics(
    tickerSymbol: string,
    stockPrice: real,
    strikePrice: real,
    optionPremium: real,
    expirationDate: string,
    dropPercentage: real,
    breakevenPrice: real,
    premiumCollected: real,
    daysToExpiration: int,
    returnAtExpiration: real,
    premiumAnnualized: real)

  /** Python's round(x) on a real: the nearest integer, a half going to the even one. */
  function RoundHalfEven(x: real): (n: int)
    ensures n as real - 0.5 <= x <= n as real + 0.5
    ensures x == n as real + 0.5 || x == n as real - 0.5 ==> n % 2 == 0
  {
    var f := x.Floor;
    var frac := x - f as real;
    if frac < 0.5 then f
    else if frac > 0.5 then f + 1
    else if f % 2 == 0 then f
    else f + 1
  }

  /** Python's round(x, 2), over reals: a whole number of hundredths within half a
      hundredth of x. */
  function Round2(x: real): (r: real)
    ensures -0.005 <= r - x <= 0.005
    ensures (r * 100.0).Floor as real == r * 100.0
    ensures x == 0.0 ==> r == 0.0
    ensures r - x == 0.005 || x - r == 0.005 ==> (r * 100.0).Floor % 2 == 0
  {
    var n := RoundHalfEven(x * 100.0);
    var r := Hundredths(n);
    assert (r * 100.0).Floor == n;
    r
  }

  /** n hundredths. */
  function Hundredths(n: int): (r: real)
    ensures r * 100.0 == n as real
  {
    n as real / 100.0
  }

  /** How far, in percent of the stock price, the stock may fall to the strike; 0 when the
      stock price is 0. */
  function DropPercentage(stockPrice: real, strikePrice: real): (r: real)
    ensures stockPrice == 0.0 ==> r == 0.0
    ensures stockPrice != 0.0 ==> r * stockPrice == (stockPrice - strikePrice) * 100.0
  {
    if stockPrice != 0.0 then ((stockPrice - strikePrice) / stockPrice) * 100.0 else 0.0
  }

  /** The premium in percent of the strike; 0 when the strike is 0. */
  function ReturnAtExpiration(optionPremium: real, strikePrice: real): (r: real)
    ensures strikePrice == 0.0 ==> r == 0.0
    ensures strikePrice != 0.0 ==> r * strikePrice == optionPremium * 100.0
  {
    if strikePrice != 0.0 then (optionPremium / strikePrice) * 100.0 else 0.0
  }

  /** The return at expiration scaled to 365 days; 0 unless both days and strike are
      non-zero (a negative day count never reaches this, see CalculatePutMetrics). */
  function PremiumAnnualized(optionPremium: real, strikePrice: real, days: int): (r: real)
    ensures !(days > 0 && strikePrice != 0.0) ==> r == 0.0
    ensures days > 0 && strikePrice != 0.0 ==>
      r * days as real == ReturnAtExpiration(optionPremium, strikePrice) * 365.0
  {
    if days > 0 && strikePrice != 0.0 then
      (((optionPremium / strikePrice) * 100.0) * 365.0) / days as real
    else 0.0
  }

  /** The premium of all contracts: 100 shares each. */
  function PremiumCollected(optionPremium: real, contracts: int): (r: real)
    ensures contracts == 1 ==> r == optionPremium * 100.0
    ensures contracts == 0 || optionPremium == 0.0 ==> r == 0.0
  {
    optionPremium * contracts as real * 100.0
  }

  /** The premium grows linearly in the number of contracts: n contracts collect n times
      the premium of one, and the premiums of two batches add up. */
  lemma PremiumCollectedLinear(optionPremium: real, n: int, m: int)
    ensures PremiumCollected(optionPremium, n) == n as real * PremiumCollected(optionPremium, 1)
    ensures PremiumCollected(optionPremium, n + m)
         == PremiumCollected(optionPremium, n) + PremiumCollected(optionPremium, m)
  {
  }

  /** calculate_put_metrics: a 400 naming the missing keys, a 400 for a value that does
      not convert, a 400 for an expiration before today, otherwise the metrics, each
      rounded to cents. */
  function CalculatePutMetrics(req: PutRequest, today: int): (r: Result<PutMetrics, ApiError>)
    ensures MissingParams(req.present) != [] ==>
      r == Failure(MissingParamsError(MissingParams(req.present)))
    ensures MissingParams(req.present) == [] && !WellFormed(req) ==> r == Failure(InvalidInputError)
    ensures MissingParams(req.present) == [] && WellFormed(req) && req.expirationDate.value < today ==>
      r == Failure(PastExpirationError)
    ensures r.Failure? ==> r.error.status == 400
    ensures r.Success? <==>
      MissingParams(req.present) == [] && WellFormed(req) && req.expirationDate.value >= today
    ensures r.Success? ==>
      var m := r.value;
      var stock, strike, premium := req.stockPrice.value, req.strikePrice.value, req.optionPremium.value;
      && m.daysToExpiration == req.expirationDate.value - today >= 0
      && m.tickerSymbol == req.tickerSymbol
      && m.stockPrice == stock
      && m.strikePrice == strike
      && m.optionPremium == premium
      && m.expirationDate == req.expirationDateStr
      && m.dropPercentage == Round2(DropPercentage(stock, strike))
      && m.breakevenPrice == Round2(strike - premium)
      && m.premiumCollected == Round2(PremiumCollected(premium, ContractCount(req.numberOfContracts)))
      && m.returnAtExpiration == Round2(ReturnAtExpiration(premium, strike))
      && m.premiumAnnualized == Round2(PremiumAnnualized(premium, strike, m.daysToExpiration))
  {
    var missing := MissingParams(req.present);
    if missing != [] then Failure(MissingParamsError(missing))
    else if !WellFormed(req) then Failure(InvalidInputError)
    else
      var stock, strike, premium := req.stockPrice.value, req.strikePrice.value, req.optionPremium.value;
      var contracts := ContractCount(req.numberOfContracts);
      var days := req.expirationDate.value - today;
      if days < 0 then Failure(PastExpirationError)
      else
        Success(PutMetrics(
          tickerSymbol := req.tickerSymbol,
          stockPrice := stock,
          strikePrice := strike,
          optionPremium := premium,
          expirationDate := req.expirationDateStr,
          dropPercentage := Round2(DropPercentage(stock, strike)),
          breakevenPrice := Round2(strike - premium),
          premiumCollected := Round2(PremiumCollected(premium, contracts)),
          daysToExpiration := days,
          returnAtExpiration := Round2(ReturnAtExpiration(premium, strike)),
          premiumAnnualized := Round2(PremiumAnnualized(premium, strike, days))))
  }

  /** The zero guards: a zero stock price gives no drop, a zero strike gives no return,
      and an expiration today is accepted with nothing annualised. */
  lemma PutMetricsZeroGuards(req: PutRequest, today: int)
    requires CalculatePutMetrics(req, today).Success?
    ensures var m := CalculatePutMetrics(req, today).value;
            && (req.stockPrice == Some(0.0) ==> m.dropPercentage == 0.0)
            && (req.strikePrice == Some(0.0) ==> m.returnAtExpiration == 0.0 && m.premiumAnnualized == 0.0)
            && (req.expirationDate == Some(today) ==> m.daysToExpiration == 0 && m.premiumAnnualized == 0.0)
  {
  }

  /** Without number_of_contracts the request is for one contract, so 100 shares of
      premium are collected. */
  lemma PutMetricsDefaultContracts(req: PutRequest, today: int)
    requires CalculatePutMetrics(req, today).Success? && req.numberOfContracts.NotGiven?
    ensures CalculatePutMetrics(req, today).value.premiumCollected == Round2(req.optionPremium.value * 100.0)
  {
  }

  /** With nothing missing and everything converting, an expiration today is accepted
      (0 days), the day before is rejected. */
  lemma PutMetricsExpirationBoundary(req: PutRequest, today: int)
    requires MissingParams(req.present) == [] && WellFormed(req)
    ensures req.expirationDate == Some(today) ==> CalculatePutMetrics(req, today).Success?
    ensures req.expirationDate == Some(today - 1) ==> CalculatePutMetrics(req, today) == Failure(PastExpirationError)
  {
  }

  /** Before rounding, the back end's put figures are the front end's: the return at
      expiration is percentReturn, the drop is dropFromCurrent and the annualised premium
      is annualized, for the same number of days. */
  lemma PutMetricsMatchFrontEnd(stockPrice: real, strikePrice: real, premium: real,
                                today: int, expiration: int, days: int)
    requires stockPrice != 0.0 && strikePrice != 0.0
    requires days > 0 && App.DaysToExpiration(today, Some(expiration)) == days
    ensures var f := App.GetResults(App.Put, stockPrice, strikePrice, premium, today, Some(expiration));
            && ReturnAtExpiration(premium, strikePrice) == f.percentReturn
            && DropPercentage(stockPrice, strikePrice) == f.dropFromCurrent
            && PremiumAnnualized(premium, strikePrice, days) == f.annualized
  {
    var f := App.GetResults(App.Put, stockPrice, strikePrice, premium, today, Some(expiration));
    var ret := ReturnAtExpiration(premium, strikePrice);
    assert ret * strikePrice == f.percentReturn * strikePrice;
    assert ret == f.percentReturn;
    assert DropPercentage(stockPrice, strikePrice) * stockPrice == f.dropFromCurrent * stockPrice;
    var ann := PremiumAnnualized(premium, strikePrice, days);
    assert ann * days as real == f.annualized * days as real;
  }

  // ---------------------------------------------------------------------------
  // get_option_contracts_alpaca: strike and expiration selection

  /** The fields of an Alpaca option contract the selection reads: "type",
      "strike_price" and "expiration_date" (as a day number). */
  datatype OptionContract = OptionContract(kind: string, strikePrice: real, expirationDate: int)

  /** `[c for c in all_contracts if c.get("type") == "put"]`. */
  function PutContracts(all: seq<OptionContract>): (r: seq<OptionContract>)
    ensures forall c :: c in r <==> c in all && c.kind == "put"
    ensures |r| <= |all|
  {
    Filter(all, (c: OptionContract) => c.kind == "put")
  }

  /** `abs(strike - price)`. */
  function Distance(strike: real, price: real): real {
    Abs(strike - price)
  }

  /** Where Python's `min(puts, key=...)` finds its answer: the first contract whose strike
      is nearest the price. */
  function NearestIndex(puts: seq<OptionContract>, price: real): (i: nat)
    requires |puts| > 0
    ensures i < |puts|
    ensures forall j :: 0 <= j < |puts| ==>
      Distance(puts[i].strikePrice, price) <= Distance(puts[j].strikePrice, price)
    ensures forall j :: 0 <= j < i ==>
      Distance(puts[j].strikePrice, price) > Distance(puts[i].strikePrice, price)
  {
    if |puts| == 1 then 0
    else
      var k := NearestIndex(puts[1..], price);
      if Distance(puts[0].strikePrice, price) <= Distance(puts[1 + k].strikePrice, price) then 0
      else 1 + k
  }

  /** atm_strike: the strike of the first put nearest the current price. */
  function AtTheMoneyStrike(puts: seq<OptionContract>, price: real): (atm: real)
    requires |puts| > 0
    ensures exists k ::
              && 0 <= k < |puts| && puts[k].strikePrice == atm
              && forall j :: 0 <= j < k ==> Distance(puts[j].strikePrice, price) > Distance(atm, price)
    ensures forall c :: c in puts ==> Distance(atm, price) <= Distance(c.strikePrice, price)
  {
    var i := NearestIndex(puts, price);
    assert forall c :: c in puts ==> exists j :: 0 <= j < |puts| && puts[j] == c;
    puts[i].strikePrice
  }

  function Abs(x: real): real {
    if x >= 0.0 then x else -x
  }

  /** The bounds `atm -/+ 10 * abs(atm * 0.05)`: half the strike's size either side. */
  function LowerBound(atm: real): (r: real)
    ensures r == atm - Abs(atm) / 2.0
  {
    atm - (10.0 * Abs(atm * 0.05))
  }

  function UpperBound(atm: real): (r: real)
    ensures r == atm + Abs(atm) / 2.0
  {
    atm + (10.0 * Abs(atm * 0.05))
  }

  predicate InWindow(strike: real, atm: real) {
    LowerBound(atm) <= strike && strike <= UpperBound(atm)
  }

  /** The at-the-money strike always lies in its own window, so the window is never empty. */
  lemma AtTheMoneyInOwnWindow(atm: real)
    ensures InWindow(atm, atm)
  {
    assert LowerBound(atm) <= atm <= UpperBound(atm);
  }

  const MaxClosestStrikes: nat := 21
  const MaxExpirationDates: nat := 8

  /** The key of the sort in closest_strikes. */
  function ByDistance(price: real): OptionContract -> real {
    (c: OptionContract) => Distance(c.strikePrice, price)
  }

  function InWindowOf(atm: real): OptionContract -> bool {
    (c: OptionContract) => InWindow(c.strikePrice, atm)
  }

  /** closest_strikes: the puts inside the window, sorted nearest the price first, cut to
      21. Every put of the window that is left out, or has fewer copies kept than the chain
      lists, is at least as far from the price as every one kept. */
  function ClosestContracts(puts: seq<OptionContract>, atm: real, price: real): (r: seq<OptionContract>)
    ensures |r| <= MaxClosestStrikes
    ensures forall c :: c in r ==> c in puts && InWindow(c.strikePrice, atm)
    ensures forall c :: c in puts && InWindow(c.strikePrice, atm) && c !in r ==> |r| == MaxClosestStrikes
    ensures forall c, t :: c in puts && InWindow(c.strikePrice, atm) && c !in r && t in r ==>
      Distance(t.strikePrice, price) <= Distance(c.strikePrice, price)
    ensures forall i, j :: 0 <= i < j < |r| ==>
      Distance(r[i].strikePrice, price) <= Distance(r[j].strikePrice, price)
    ensures forall d :: Filter(r, KeyIs(ByDistance(price), d))
                     <= Filter(Filter(puts, InWindowOf(atm)), KeyIs(ByDistance(price), d))
    ensures forall c :: multiset(r)[c] < multiset(Filter(puts, InWindowOf(atm)))[c] ==> |r| == MaxClosestStrikes
    ensures forall c, t :: multiset(r)[c] < multiset(Filter(puts, InWindowOf(atm)))[c] && t in r ==>
      Distance(t.strikePrice, price) <= Distance(c.strikePrice, price)
  {
    var r := LeastN(puts, InWindowOf(atm), ByDistance(price), MaxClosestStrikes);
    assert forall c :: InWindowOf(atm)(c) == InWindow(c.strikePrice, atm);
    assert forall c :: ByDistance(price)(c) == Distance(c.strikePrice, price);
    KeptByDistance(puts, atm, price);
    r
  }

  /** LeastN's key bounds for closest_strikes, read back as distances to the price. */
  lemma KeptByDistance(puts: seq<OptionContract>, atm: real, price: real)
    ensures var r := LeastN(puts, InWindowOf(atm), ByDistance(price), MaxClosestStrikes);
      forall i, j :: 0 <= i < j < |r| ==> Distance(r[i].strikePrice, price) <= Distance(r[j].strikePrice, price)
    ensures var r := LeastN(puts, InWindowOf(atm), ByDistance(price), MaxClosestStrikes);
      forall c, t :: c in puts && InWindow(c.strikePrice, atm) && c !in r && t in r ==>
        Distance(t.strikePrice, price) <= Distance(c.strikePrice, price)
    ensures var r := LeastN(puts, InWindowOf(atm), ByDistance(price), MaxClosestStrikes);
      forall c, t :: multiset(r)[c] < multiset(Filter(puts, InWindowOf(atm)))[c] && t in r ==>
        Distance(t.strikePrice, price) <= Distance(c.strikePrice, price)
  {
    assert forall c :: InWindowOf(atm)(c) == InWindow(c.strikePrice, atm);
    assert forall c :: ByDistance(price)(c) == Distance(c.strikePrice, price);
  }

  /** The sort keys of `sorted(set(...))` over strikes and over dates. */
  function StrikeKey(x: real): real {
    x
  }

  function DateKey(d: int): real {
    d as real
  }

  lemma KeysInjective()
    ensures Injective(StrikeKey) && Injective(DateKey)
  {
  }

  function StrikeOf(c: OptionContract): real {
    c.strikePrice
  }

  function ExpirationOf(c: OptionContract): int {
    c.expirationDate
  }

  /** `sorted(list(set([c['strike_price'] for c in cs])))`. */
  function DistinctStrikes(cs: seq<OptionContract>): (r: seq<real>)
    ensures StrictlySortedBy(r, StrikeKey)
    ensures |r| <= |cs|
    ensures forall c :: c in cs ==> c.strikePrice in r
    ensures forall s :: s in r ==> exists c :: c in cs && c.strikePrice == s
  {
    MapMembers(cs, StrikeOf);
    KeysInjective();
    var r := SortedSetBy(Map(cs, StrikeOf), StrikeKey);
    r
  }

  /** `sorted(list(set([c.get("expiration_date") for c in cs])))`. */
  function DistinctExpirations(cs: seq<OptionContract>): (r: seq<int>)
    ensures StrictlySortedBy(r, DateKey)
    ensures forall c :: c in cs ==> c.expirationDate in r
    ensures forall d :: d in r ==> exists c :: c in cs && c.expirationDate == d
  {
    MapMembers(cs, ExpirationOf);
    KeysInjective();
    var r := SortedSetBy(Map(cs, ExpirationOf), DateKey);
    r
  }

  /** `[d for d in dates if d >= today]`. */
  function OnOrAfter(dates: seq<int>, today: int): (r: seq<int>)
    requires StrictlySortedBy(dates, DateKey)
    ensures StrictlySortedBy(r, DateKey)
    ensures forall d :: d in r <==> d in dates && d >= today
  {
    var r := Filter(dates, (d: int) => d >= today);
    FilterStrictlySorted(dates, (d: int) => d >= today, DateKey);
    r
  }

  /** closest_strike_prices: the strikes of the closest contracts, ascending, each once.
      They lie in the window, there are at most 21, and every put of the window whose strike
      is not listed is at least as far from the price as every listed strike. */
  function ClosestStrikes(puts: seq<OptionContract>, atm: real, price: real): (r: seq<real>)
    ensures StrictlySortedBy(r, StrikeKey)
    ensures |r| <= MaxClosestStrikes
    ensures forall s :: s in r ==> InWindow(s, atm) && exists c :: c in puts && c.strikePrice == s
    ensures forall c, s :: c in puts && InWindow(c.strikePrice, atm) && c.strikePrice !in r && s in r ==>
      Distance(s, price) <= Distance(c.strikePrice, price)
    ensures forall c :: c in puts && InWindow(c.strikePrice, atm) && c.strikePrice !in r ==>
      |ClosestContracts(puts, atm, price)| == MaxClosestStrikes
    ensures (exists c :: c in puts && InWindow(c.strikePrice, atm)) ==> |r| > 0
    ensures forall s :: s in r <==> exists c :: c in ClosestContracts(puts, atm, price) && c.strikePrice == s
  {
    var closest := ClosestContracts(puts, atm, price);
    var r := DistinctStrikes(closest);
    assert (exists c :: c in puts && InWindow(c.strikePrice, atm)) ==> |r| > 0 by {
      if c :| c in puts && InWindow(c.strikePrice, atm) {
        if c !in closest {
          assert closest[0].strikePrice in r;
        }
      }
    }
    forall c, s | c in puts && InWindow(c.strikePrice, atm) && c.strikePrice !in r && s in r
      ensures Distance(s, price) <= Distance(c.strikePrice, price)
    {
      var t :| t in closest && t.strikePrice == s;
    }
    r
  }

  /** next_expiration_dates: the distinct expirations of the puts that are today or later,
      ascending, the first 8 of them. A put expiring today or later whose date is not listed
      expires after all 8 listed dates. */
  function NextExpirationDates(puts: seq<OptionContract>, today: int): (r: seq<int>)
    ensures StrictlySortedBy(r, DateKey)
    ensures |r| <= MaxExpirationDates
    ensures forall d :: d in r ==> d >= today && exists c :: c in puts && c.expirationDate == d
    ensures forall c :: c in puts && c.expirationDate >= today && c.expirationDate !in r ==>
      |r| == MaxExpirationDates
    ensures forall c, d :: c in puts && c.expirationDate >= today && c.expirationDate !in r && d in r ==>
      d < c.expirationDate
  {
    var dates := DistinctExpirations(puts);
    var upcoming := OnOrAfter(dates, today);
    var r := Take(upcoming, MaxExpirationDates);
    assert r == upcoming[..|r|];
    forall d | d in r ensures d in upcoming {
      var k :| 0 <= k < |r| && r[k] == d;
      assert upcoming[k] == d;
    }
    assert SortedBy(upcoming, DateKey) by {
      assert forall i, j :: 0 <= i < j < |upcoming| ==> DateKey(upcoming[i]) <= DateKey(upcoming[j]);
    }
    forall c | c in puts && c.expirationDate >= today && c.expirationDate !in r
      ensures |r| == MaxExpirationDates
    {
      assert c.expirationDate in dates;
      TakeFull(upcoming, MaxExpirationDates, c.expirationDate);
    }
    forall c, d | c in puts && c.expirationDate >= today && c.expirationDate !in r && d in r
      ensures d < c.expirationDate
    {
      assert c.expirationDate in dates;
      TakeKeepsLeast(upcoming, DateKey, MaxExpirationDates, c.expirationDate, d);
      assert d != c.expirationDate;
    }
    r
  }

  /** The body of a successful answer of get_option_contracts_alpaca. */
  datatype ContractSelection = ContractSelection(
    atTheMoneyStrike: real,
    closestStrikePrices: seq<real>,
    nextExpirationDates: seq<int>)

  /** get_option_contracts_alpaca after the fetches: the ticker ("" when absent), the
      latest trade price (None when none was returned) and the fetched contracts. */
  function SelectContracts(ticker: string, latestPrice: Option<real>, contracts: seq<OptionContract>,
                           today: int): (r: Result<ContractSelection, ApiError>)
    ensures ticker == "" ==> r == Failure(ApiError(400, "underlying_symbols parameter is required."))
    ensures ticker != "" && latestPrice.None? ==>
      r == Failure(ApiError(404, "Could not retrieve latest stock trade price for " + ticker + "."))
    ensures ticker != "" && latestPrice.Some? && PutContracts(contracts) == [] ==>
      r == Failure(ApiError(404, "No put options found for " + ticker + "."))
    ensures r.Success? <==> ticker != "" && latestPrice.Some? && PutContracts(contracts) != []
    ensures r.Success? ==>
      var puts := PutContracts(contracts);
      var atm := r.value.atTheMoneyStrike;
      && atm == AtTheMoneyStrike(puts, latestPrice.value)
      && r.value.closestStrikePrices == ClosestStrikes(puts, atm, latestPrice.value)
      && r.value.nextExpirationDates == NextExpirationDates(puts, today)
  {
    if ticker == "" then Failure(ApiError(400, "underlying_symbols parameter is required."))
    else if latestPrice.None? then
      Failure(ApiError(404, "Could not retrieve latest stock trade price for " + ticker + "."))
    else
      var price := latestPrice.value;
      var puts := PutContracts(contracts);
      if puts == [] then Failure(ApiError(404, "No put options found for " + ticker + "."))
      else
        var atm := AtTheMoneyStrike(puts, price);
        Success(ContractSelection(
          atTheMoneyStrike := atm,
          closestStrikePrices := ClosestStrikes(puts, atm, price),
          nextExpirationDates := NextExpirationDates(puts, today)))
  }

  /** The at-the-money strike of a successful selection is the strike of a fetched put
      nearest the latest price, and it lies in its own window. */
  lemma SelectedStrikeIsNearestPut(ticker: string, latestPrice: Option<real>, contracts: seq<OptionContract>, today: int)
    requires ticker != "" && latestPrice.Some? && PutContracts(contracts) != []
    ensures var atm := SelectContracts(ticker, latestPrice, contracts, today).value.atTheMoneyStrike;
            && (exists c :: c in contracts && c.kind == "put" && c.strikePrice == atm)
            && (forall c :: c in contracts && c.kind == "put" ==>
                  Distance(atm, latestPrice.value) <= Distance(c.strikePrice, latestPrice.value))
            && InWindow(atm, atm)
  {
    var puts := PutContracts(contracts);
    var price := latestPrice.value;
    var atm := SelectContracts(ticker, latestPrice, contracts, today).value.atTheMoneyStrike;
    assert atm == AtTheMoneyStrike(puts, price);
    AtTheMoneyInOwnWindow(atm);
    var k :| 0 <= k < |puts| && puts[k].strikePrice == atm;
    assert puts[k] in puts;
    forall c | c in contracts && c.kind == "put"
      ensures Distance(atm, price) <= Distance(c.strikePrice, price)
    {
      assert c in puts;
    }
  }

  /** Every strike a successful selection lists is the strike of a fetched put, inside the
      window around the at-the-money strike. */
  lemma SelectedStrikesFromPuts(ticker: string, latestPrice: Option<real>, contracts: seq<OptionContract>, today: int)
    requires ticker != "" && latestPrice.Some? && PutContracts(contracts) != []
    ensures var s := SelectContracts(ticker, latestPrice, contracts, today).value;
            forall x :: x in s.closestStrikePrices ==>
              InWindow(x, s.atTheMoneyStrike) && exists c :: c in contracts && c.kind == "put" && c.strikePrice == x
  {
    var puts := PutContracts(contracts);
    var s := SelectContracts(ticker, latestPrice, contracts, today).value;
    assert s.closestStrikePrices == ClosestStrikes(puts, s.atTheMoneyStrike, latestPrice.value);
    forall x | x in s.closestStrikePrices
      ensures exists c :: c in contracts && c.kind == "put" && c.strikePrice == x
    {
      var c :| c in puts && c.strikePrice == x;
    }
  }

  /** A successful selection always lists at least one strike: the at-the-money put lies
      in its own window, so the window is never empty. */
  lemma SelectedStrikesNonEmpty(ticker: string, latestPrice: Option<real>, contracts: seq<OptionContract>, today: int)
    requires ticker != "" && latestPrice.Some? && PutContracts(contracts) != []
    ensures |SelectContracts(ticker, latestPrice, contracts, today).value.closestStrikePrices| > 0
  {
    var puts := PutContracts(contracts);
    var s := SelectContracts(ticker, latestPrice, contracts, today).value;
    var atm := s.atTheMoneyStrike;
    assert atm == AtTheMoneyStrike(puts, latestPrice.value);
    assert s.closestStrikePrices == ClosestStrikes(puts, atm, latestPrice.value);
    AtTheMoneyInOwnWindow(atm);
    var k :| 0 <= k < |puts| && puts[k].strikePrice == atm;
    assert puts[k] in puts && InWindow(puts[k].strikePrice, atm);
  }

  /** Every date a successful selection lists is the expiration of a fetched put, on or
      after today. */
  lemma SelectedDatesFromPuts(ticker: string, latestPrice: Option<real>, contracts: seq<OptionContract>, today: int)
    requires ticker != "" && latestPrice.Some? && PutContracts(contracts) != []
    ensures var s := SelectContracts(ticker, latestPrice, contracts, today).value;
            forall d :: d in s.nextExpirationDates ==>
              d >= today && exists c :: c in contracts && c.kind == "put" && c.expirationDate == d
  {
    var puts := PutContracts(contracts);
    var s := SelectContracts(ticker, latestPrice, contracts, today).value;
    assert s.nextExpirationDates == NextExpirationDates(puts, today);
    forall d | d in s.nextExpirationDates
      ensures exists c :: c in contracts && c.kind == "put" && c.expirationDate == d
    {
      var c :| c in puts && c.expirationDate == d;
    }
  }
}
