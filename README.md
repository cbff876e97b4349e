# Options calculator — a verified model of the calculation core

The options calculator helps a trader size up two option strategies. A **cash-secured
put** sells a put and sets aside the strike's cash. A **covered call** sells calls
against 100-share lots. The React front end turns a stock quote, a strike, a premium and
an expiration into a metrics record: breakeven, capital, percent return, premium per day,
the annualised return, and so on. It then highlights each metric that meets the trader's
target.

The Django back end has three parts:
- `calculate_put_metrics` computes five of the put figures, each rounded to cents: the
  drop, the breakeven, the premium for `number_of_contracts` contracts, the return and the
  annualised return. It also reports the days to expiration, counted in calendar days
  between dates.
- `get_option_contracts_alpaca` picks, from the fetched option chain, an at-the-money
  strike, the strikes around it, and the next expirations.
- A WebSocket consumer relays live trades and quotes, and reports whether the market is
  open.

This project models those calculations and decisions as pure Dafny functions. It proves
what they promise. Nothing here performs I/O. The current time, the parsed request, the
fetched contracts and the parsed stream messages are all parameters.

Files:

- `wrappers.dfy` — module `Wrappers`: `Option` and `Result`.
- `sequences.dfy` — module `Sequences`: the list operations the back end uses, with their
  laws. These are list comprehensions (`Filter`), `sorted(..., key=...)` (a stable
  `SortBy`), `sorted(set(...))` (`SortedSetBy`) and slicing (`Take`).
- `app.dfy` — module `App`: the front end's engine (`options_calc_frontend/src/App.tsx`).
  Instants are epoch milliseconds, and "now" is a parameter.
- `views.dfy` — module `Views`: the two back-end handlers
  (`options_calc_backend/put_calculator/views.py`). Dates are day numbers, and "today" is
  a parameter. Errors are `Failure(ApiError(status, message))`, with the source's exact
  texts.
- `consumers.dfy` — module `Consumers`: the pure parts of
  `options_calc_backend/put_calculator/consumers.py`. Messages are taken as parsed JSON
  values (`Json`). An undecodable message is `None`.

Prices are exact reals. JavaScript's `Math.round` is written out as `floor(x + 1/2)`.
Python's `round(x, 2)` is written out as round-half-even on hundredths. Python's `int()`
of a float is written out as truncation toward zero.

Three behaviours of the front end's code shape the model:

- getResults divides by the strike (`App.tsx:79`) and by the stock price
  (`App.tsx:80`, `84-85`) without a guard, so `App.GetResults` requires both to be
  non-zero.
- ccCalculate computes the premium return only when `capitalUsed > 0` (`App.tsx:131-132`),
  so a negative capital also gives 0.
- ccCalculate uses the purchase price only when the shares are owned and the price is
  non-zero (`App.tsx:125`). Otherwise it uses the quote (`App.EntryCost`).

## Model

| member | source | states |
|---|---|---|
| App.MathRound | options_calc_frontend/src/App.tsx:43-45 | the result is the integer nearest x, a half going up |
| App.DaysToExpiration | options_calc_frontend/src/App.tsx:39-47 | 0 for an empty or past expiration; at least 1 once the expiration is half a day or more ahead; a positive result is within half a day of the time to expiration |
| App.DaysToExpirationWholeDays | options_calc_frontend/src/App.tsx:39-47 | an expiration exactly k days ahead is k days away |
| App.DaysToExpirationMonotone | options_calc_frontend/src/App.tsx:39-47 | a later expiration is never fewer days away |
| App.Annualize | options_calc_frontend/src/App.tsx:49-52 | 0 for zero days; otherwise result × days = return × 365 |
| App.AnnualizeScales | options_calc_frontend/src/App.tsx:90 | annualising commutes with scaling, so annualising the fraction and then multiplying by 100 equals annualising the percentage |
| App.PerDay | options_calc_frontend/src/App.tsx:133 | 0 for zero days; otherwise per-day × days = amount |
| App.Percent | options_calc_frontend/src/App.tsx:137 | result × whole = part × 100 |
| App.PercentOf | options_calc_frontend/src/App.tsx:131-132 | 0 unless whole > 0; otherwise result × whole = part × 100 |
| App.GetResults | options_calc_frontend/src/App.tsx:55-102 | days as daysToExpiration; premium = 100 × premium; per-day × days = premium (0 at zero days); annualized = annualize(percentReturn, days); for a put, breakeven + premium = strike, capital = 100 × strike, return = premium in percent of strike, drop = (stock − strike) in percent of stock; for a call, the mirror with the stock price as capital and divisor |
| App.PutCallMirror | options_calc_frontend/src/App.tsx:76-86 | the call's drop is the put's negated; the two breakevens are symmetric about the strike; capital and return scale by stock/strike; premium, per-day and days do not depend on the kind |
| App.PercentNegate | options_calc_frontend/src/App.tsx:79-85 | a change in the opposite direction is the same percentage negated |
| App.PutExample | options_calc_frontend/src/App.tsx:55-102 | stock 99, strike 95, premium 1.25, 7 days: breakeven 93.75, capital 9500, premium 125, return 125/95 %, drop 400/99 % |
| App.EntryCost | options_calc_frontend/src/App.tsx:125 | the purchase price when the shares are owned and a non-zero price is entered, else the quote; non-zero whenever the quote is |
| App.CcCalculate | options_calc_frontend/src/App.tsx:105-158 | null exactly when the stock price, shares, strike or premium is zero or the expiration is empty; otherwise contracts = ⌊shares/100⌋, premium = contracts × 100 × premium, capital = shares × entry cost, breakeven = entry cost − premium, days as daysToExpiration |
| App.CoveredCallReturns | options_calc_frontend/src/App.tsx:131-141 | premium and total return are their amounts in percent of capital (0 unless capital > 0); per-day and annualized are 0 at zero days; annualized equals annualize(premium return, days) |
| App.CoveredCallStockGains | options_calc_frontend/src/App.tsx:136-140 | gain if exercised = (strike − entry) × shares; stock gain % × entry = (strike − entry) × 100, the same as the rise %; it is also the exercised gain in percent of capital; total = stock gain + premium |
| App.CoveredCallContracts | options_calc_frontend/src/App.tsx:123-127 | under 100 shares no contract and no premium; 100 shares make 1 contract, 250 make 2 |
| App.CoveredCallExample | options_calc_frontend/src/App.tsx:105-158 | quote 100, 100 shares, strike 105, premium 2, 14 days: capital 10000, premium 200, return 2 %, total gain 700 (7 %) |
| App.OwnedCoveredCallExample | options_calc_frontend/src/App.tsx:125-128 | owned at 90 with the quote at 110: the capital is 200 × 90 and the breakeven is 87 |
| App.MeetsTarget | options_calc_frontend/src/App.tsx:174-182 | never met while the target or the value is absent; higher-is-better is met iff actual ≥ target, any other direction iff actual ≤ target |
| App.MeetsTargetAtEquality | options_calc_frontend/src/App.tsx:181 | a value equal to its target is met in either direction |
| App.MeetsTargetMonotone | options_calc_frontend/src/App.tsx:181 | raising a higher-is-better value keeps it met, and lowering any other value keeps it met |
| App.EditTarget | options_calc_frontend/src/App.tsx:250-257 | an empty field deletes the key; a number sets it; every other key keeps its target |
| App.EditTargetUndo | options_calc_frontend/src/App.tsx:252-256 | setting a new key and clearing it restores the targets |
| App.EditTargetIdempotent | options_calc_frontend/src/App.tsx:252-256 | the same edit applied twice equals applying it once |
| Sequences.Filter | options_calc_backend/put_calculator/views.py:151 | a list comprehension keeps exactly the elements that pass, and is no longer than its input |
| Sequences.FilterKeepsOrder | options_calc_backend/put_calculator/views.py:252 | two kept elements appear in the result in their input order |
| Sequences.FilterPrefix | options_calc_backend/put_calculator/views.py:166-169 | filtering a prefix of a list gives a prefix of the filtered list |
| Sequences.SortBy | options_calc_backend/put_calculator/views.py:166-169 | sorted by key, and a permutation (equal multisets) of the input |
| Sequences.InsertByEqualKeys | options_calc_backend/put_calculator/views.py:166-169 | an inserted element lands before every element of equal key, and elements of equal key keep their order |
| Sequences.SortByStable | options_calc_backend/put_calculator/views.py:166-169 | the sort is stable, as Python's `sorted` is: the elements of any one key come out in their input order |
| Sequences.SortByMembers | options_calc_backend/put_calculator/views.py:166-169 | sorting keeps the length and exactly the members |
| Sequences.Take | options_calc_backend/put_calculator/views.py:169 | `[:n]` is the prefix of exactly n elements, or the whole list when it is shorter |
| Sequences.TakeKeepsLeast | options_calc_backend/put_calculator/views.py:166-169 | cutting a sorted list keeps the least keys: anything cut has a key at least that of anything kept, and n were kept |
| Sequences.LeastN | options_calc_backend/put_calculator/views.py:166-169 | filter, sort and cut: at most n passing members kept, in key order; a passing member is left out, or has fewer copies kept than pass, only when n were kept, and its key is no smaller than any kept one; for each key, the kept elements are the first passing elements with that key, in input order, as a stable sort leaves them |
| Sequences.TakeCountsLeast | options_calc_backend/put_calculator/views.py:169 | counting copies: fewer copies of x in the cut than in the sorted list means the cut is full and every kept key is no greater than x's |
| Sequences.CutByMembership | options_calc_backend/put_calculator/views.py:166-169 | sorting then cutting keeps only input elements; an element left out means n were kept, all with keys no greater than its key |
| Sequences.CutByCount | options_calc_backend/put_calculator/views.py:166-169 | the same bounds copy by copy: fewer copies kept than given means n were kept, all with keys no greater |
| Sequences.CutIsStable | options_calc_backend/put_calculator/views.py:166-169 | the cut is in key order, and for each key it keeps the first elements of that key in input order |
| Sequences.SortedSetBy | options_calc_backend/put_calculator/views.py:171 | `sorted(set(...))` under an injective key is strictly increasing and has exactly the input's members |
| Sequences.FilterStrictlySorted | options_calc_backend/put_calculator/views.py:173-175 | filtering a strictly increasing list leaves it strictly increasing |
| Views.MissingParams | options_calc_backend/put_calculator/views.py:251-252 | exactly the required keys the request lacks |
| Views.MissingParamsInOrder | options_calc_backend/put_calculator/views.py:252-255 | missing keys are reported in the order they are listed |
| Views.Join | options_calc_backend/put_calculator/views.py:255 | `", ".join`: empty for no parts, the part itself for one; for several, the result starts with the first part and the separator |
| Views.JoinAppend | options_calc_backend/put_calculator/views.py:255 | joining two non-empty lists puts exactly one separator between their joins, so every missing key appears in order, one separator between neighbours |
| Views.RoundHalfEven | options_calc_backend/put_calculator/views.py:275-280 | Python's round: within one half of x, and a tie goes to the even integer |
| Views.Round2 | options_calc_backend/put_calculator/views.py:275-280 | round(x, 2): a whole number of hundredths within 0.005 of x; a tie goes to the even number of hundredths; 0 stays 0 |
| Views.DropPercentage | options_calc_backend/put_calculator/views.py:275 | 0 for a zero stock price, else drop × stock = (stock − strike) × 100 |
| Views.ReturnAtExpiration | options_calc_backend/put_calculator/views.py:279 | 0 for a zero strike, else return × strike = premium × 100 |
| Views.PremiumAnnualized | options_calc_backend/put_calculator/views.py:280 | 0 unless days > 0 and the strike is non-zero; otherwise annualised × days = return at expiration × 365 |
| Views.PremiumCollected | options_calc_backend/put_calculator/views.py:277 | one contract collects 100 × premium; no contracts or no premium collect 0 |
| Views.PremiumCollectedLinear | options_calc_backend/put_calculator/views.py:277 | n contracts collect n times what one collects, and the premiums of two batches add up |
| Views.ContractCount | options_calc_backend/put_calculator/views.py:261 | number_of_contracts defaults to 1 |
| Views.CalculatePutMetrics | options_calc_backend/put_calculator/views.py:251-286 | the checks in the source's order: 400 naming the missing keys; 400 "Invalid input format…" when a value does not convert; 400 for a past expiration; success exactly when none applies, with days = expiration − today ≥ 0, the inputs echoed and each metric the cent-rounded formula |
| Views.PutMetricsZeroGuards | options_calc_backend/put_calculator/views.py:275-280 | a zero stock price gives drop 0; a zero strike gives return and annualised 0; an expiration today gives 0 days and annualised 0 |
| Views.PutMetricsDefaultContracts | options_calc_backend/put_calculator/views.py:261-277 | without number_of_contracts, the premium collected is round(100 × premium, 2) |
| Views.PutMetricsExpirationBoundary | options_calc_backend/put_calculator/views.py:264-267 | an expiration today is accepted; the day before is rejected with the past-date error |
| Views.PutMetricsMatchFrontEnd | options_calc_backend/put_calculator/views.py:275-280 | before rounding, the back end's return, drop and annualised premium equal the front end's put percentReturn, dropFromCurrent and annualized |
| Views.PutContracts | options_calc_backend/put_calculator/views.py:151 | exactly the contracts of type "put" |
| Views.NearestIndex | options_calc_backend/put_calculator/views.py:156-159 | Python's min: a contract whose strike is nearest the price, and the first such |
| Views.AtTheMoneyStrike | options_calc_backend/put_calculator/views.py:156-162 | Python's min: the strike of a put no farther from the price than any put's strike, and every earlier put is strictly farther |
| Views.LowerBound | options_calc_backend/put_calculator/views.py:163 | atm − \|atm\|/2 |
| Views.UpperBound | options_calc_backend/put_calculator/views.py:164 | atm + \|atm\|/2 |
| Views.AtTheMoneyInOwnWindow | options_calc_backend/put_calculator/views.py:163-164 | the at-the-money strike lies inside its own window |
| Views.ClosestContracts | options_calc_backend/put_calculator/views.py:166-169 | at most 21 puts, all in the window, nearest first; an in-window put is left out, or has fewer copies kept than the chain lists, only when 21 were kept, and it is no nearer the price than any of them; among in-window puts at one distance, those kept are the first ones in the chain's order |
| Views.KeptByDistance | options_calc_backend/put_calculator/views.py:166-169 | the kept puts are nearest first, and a put left out, or with fewer copies kept, is no nearer the price than any kept one |
| Views.DistinctStrikes | options_calc_backend/put_calculator/views.py:181 | strictly increasing strikes, exactly those of the given contracts |
| Views.DistinctExpirations | options_calc_backend/put_calculator/views.py:171 | strictly increasing dates, exactly those of the given contracts |
| Views.OnOrAfter | options_calc_backend/put_calculator/views.py:173-175 | exactly the dates on or after today, still strictly increasing |
| Views.ClosestStrikes | options_calc_backend/put_calculator/views.py:166-181 | strictly increasing, at most 21, each a put's strike inside the window; an in-window strike is left out only when 21 contracts were kept, and it is no nearer the price than any listed; some strike is listed whenever a put lies in the window; the strikes listed are exactly those of the kept contracts |
| Views.NextExpirationDates | options_calc_backend/put_calculator/views.py:171-176 | strictly increasing, at most 8, each a put's expiration on or after today; an upcoming expiration is left out only when 8 are listed, all of them earlier |
| Views.SelectContracts | options_calc_backend/put_calculator/views.py:118-183 | 400 without a ticker; 404 without a latest price; 404 without puts; success exactly otherwise, with the at-the-money strike, closest strikes and next dates as above |
| Views.SelectedStrikeIsNearestPut | options_calc_backend/put_calculator/views.py:151-164 | the selected strike belongs to a fetched put, is nearest the price among all puts, and lies in its window |
| Views.SelectedStrikesFromPuts | options_calc_backend/put_calculator/views.py:163-181 | every listed strike is a fetched put's strike inside the window |
| Views.SelectedStrikesNonEmpty | options_calc_backend/put_calculator/views.py:156-181 | a successful selection lists at least one strike |
| Views.SelectedDatesFromPuts | options_calc_backend/put_calculator/views.py:171-182 | every listed date is a fetched put's expiration on or after today |
| Consumers.NormalizeSymbol | options_calc_backend/put_calculator/consumers.py:15-16 | the result starts with "T."; a symbol already starting with it is unchanged, any other is prefixed |
| Consumers.NormalizeSymbolIdempotent | options_calc_backend/put_calculator/consumers.py:15-16 | normalising twice equals normalising once |
| Consumers.NormalizeSymbolKeepsName | options_calc_backend/put_calculator/consumers.py:15-16 | dropping the added prefix gives back the requested symbol |
| Consumers.NotAfterIsChronological | options_calc_backend/put_calculator/consumers.py:137 | Python's field-by-field time comparison agrees with comparing microseconds since midnight |
| Consumers.StatusText | options_calc_backend/put_calculator/consumers.py:134-139 | each status has its own text: "open", "closed", "closed (weekend)" |
| Consumers.GetMarketStatus | options_calc_backend/put_calculator/consumers.py:125-139 | Saturday and Sunday are the weekend whatever the time; on other days, open iff 9:30 ≤ now ≤ 16:00, else closed |
| Consumers.MarketOpenByClock | options_calc_backend/put_calculator/consumers.py:129-139 | on a weekday, open exactly for the instants from 9:30:00 to 16:00:00, both included |
| Consumers.MarketHoursBoundaries | options_calc_backend/put_calculator/consumers.py:129-139 | open at 9:30:00 and at 16:00:00; closed at 9:29:59.999999 and at 16:00:00.000001 |
| Consumers.FirstRecord | options_calc_backend/put_calculator/consumers.py:95-96 | a list gives its first element, and an empty list gives none; anything else is kept |
| Consumers.Get | options_calc_backend/put_calculator/consumers.py:101 | `dict.get`: the value when the key is present, else the default |
| Consumers.TruncateTowardZero | options_calc_backend/put_calculator/consumers.py:107 | int() of a float keeps the sign and drops the fraction |
| Consumers.ToFloat | options_calc_backend/put_calculator/consumers.py:106 | float() of an int, float or bool; null, lists and objects raise |
| Consumers.ToInt | options_calc_backend/put_calculator/consumers.py:107 | int() of an int, float (truncated) or bool; null, lists and objects raise |
| Consumers.Dispatch | options_calc_backend/put_calculator/consumers.py:101-120 | T "t" forwards a trade and T "q" a quote, each numeric field converted from its value or 0 when absent, symbol and timestamp passed through; it raises exactly when T is "t" or "q" and one of that record's conversions fails; any other T forwards nothing |
| Consumers.HandleMarketData | options_calc_backend/put_calculator/consumers.py:91-123 | an undecodable message does nothing; an empty list raises; a first record that is not an object does nothing; an object is dispatched |
| Consumers.ListReducedToFirst | options_calc_backend/put_calculator/consumers.py:95-96 | a list is handled as its first element when that element is not itself a list |
| Consumers.NestedListIgnored | options_calc_backend/put_calculator/consumers.py:95-99 | a list whose first element is a list does nothing |
| Consumers.TradeDefaults | options_calc_backend/put_calculator/consumers.py:102-110 | a trade without price and size is forwarded with both 0 |
| Consumers.QuoteDefaults | options_calc_backend/put_calculator/consumers.py:111-120 | a quote without its four numeric fields is forwarded with all four 0 |
| Consumers.IsSuccessResponse | options_calc_backend/put_calculator/consumers.py:141-148 | true exactly when the first record is an object whose T is "success"; every parse or shape failure gives false |
| Consumers.SuccessNeverForwarded | options_calc_backend/put_calculator/consumers.py:141-148 | an authentication acknowledgement is never forwarded as market data |

## Left out

- App.GetResults: requires a non-zero stock price, and a non-zero strike for a put. The
  code divides by them without a guard and would yield Infinity or NaN, which exact reals
  cannot express.
- Floating point throughout: figures are exact reals. NaN, Infinity, overflow and binary
  representation error are not modelled.
- Views.Round2: uses round-half-even on the exact value. Python rounds the nearest binary
  double, so a figure such as 2.675 can round down where the model rounds up.
- Views.CalculatePutMetrics: a key that is present but null raises TypeError. This
  happens in float() for the three prices, in int(None) for number_of_contracts and in
  strptime(None) for expiration_date_str. The source then answers 500 "An unexpected error
  occurred: …" with the exception text. That path is not modelled: the request's values are
  either converted or rejected as ValueError.
- Views.SelectContracts: strike prices are modelled as numbers.
  - The source's final `sorted(set(c['strike_price']))` sorts the raw JSON values. If the
    feed delivered them as text, the order would be textual.
  - A contract without a strike (the `.get("strike_price", 0)` default) and the
    `atm_strike is None` branch are not modelled.
- Views.NextExpirationDates: expirations are day numbers. The source sorts 'YYYY-MM-DD'
  text, whose order is the same as date order for that format.
- Consumers.ToFloat: float() of a numeric string succeeds in Python, but the model
  treats every string as raising.
- Consumers.ToInt: int() of a string of digits succeeds in Python, but the model treats
  every string as raising.
- Consumers.HandleMarketData: `Raised` stands for an exception escaping the handler.
  What connect then does is part of the excluded connection loop: it sends an error status
  and closes the upstream socket.
- Network and I/O:
  - the Alpaca latest-trade and option-chain requests, and their 500 answers;
  - the WebSocket connection, authentication exchange, subscription, the receive loop
    with its 30-second keepalive, and send/close;
  - `InvalidPathConsumer`.
- Parsing: `json.loads`, `strptime`, `new Date(...)`, and `Number(...)` on form text.
  The models take the parsed values; an undecodable stream message is `None`.
- The clock and the time zone. `datetime.now()`, `new Date()` and the conversion to
  America/New_York are replaced by parameters: today, the weekday and the Eastern time of
  day.
- The user interface: React state, rendering, tabs, modals, formatting of figures, and the
  front end's fetch of quotes.
- The other back-end views (the stock-price and put-options endpoints) and URL routing.
