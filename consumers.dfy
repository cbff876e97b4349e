/** The pure parts of the price-stream WebSocket consumer: the "T." symbol prefix, the
    market-hours status, the classification of incoming market-data messages and the
    authentication check. Messages are taken as already-parsed JSON values. */
module Consumers {
  import opened Wrappers

  // ---------------------------------------------------------------------------------
  // Symbol normalisation
  // ---------------------------------------------------------------------------------

  /** The prefix of a trade channel symbol. */
  const TradePrefix: string := "T."

  /** A symbol that does not start with "T." gets the prefix; one that does is kept. */
  function NormalizeSymbol(symbol: string): (r: string)
    ensures TradePrefix <= r
    ensures TradePrefix <= symbol ==> r == symbol
    ensures !(TradePrefix <= symbol) ==> r == TradePrefix + symbol
  {
    if TradePrefix <= symbol then symbol else TradePrefix + symbol
  }

  /** Normalising twice is normalising once. */
  lemma NormalizeSymbolIdempotent(symbol: string)
    ensures NormalizeSymbol(NormalizeSymbol(symbol)) == NormalizeSymbol(symbol)
  {
  }

  /** The prefix is the only thing normalisation adds: dropping the first two characters
      of a prefixed symbol gives back the symbol the client asked for. */
  lemma NormalizeSymbolKeepsName(symbol: string)
    requires !(TradePrefix <= symbol)
    ensures NormalizeSymbol(symbol)[|TradePrefix|..] == symbol
  {
    assert NormalizeSymbol(symbol) == TradePrefix + symbol;
  }

  // ---------------------------------------------------------------------------------
  // Market status
  // ---------------------------------------------------------------------------------

  /** A wall-clock time of day in Eastern Time, as a Python `datetime.time`. */
  datatype ClockTime = ClockTime(hour: int, minute: int, second: int, microsecond: int)

  /** The ranges `datetime.time` enforces on its fields. */
  predicate ValidTime(t: ClockTime) {
    0 <= t.hour < 24 && 0 <= t.minute < 60 && 0 <= t.second < 60 && 0 <= t.microsecond < 1000000
  }

  /** Python's `a <= b` on times: field by field, hour first. */
  predicate NotAfter(a: ClockTime, b: ClockTime) {
    a.hour < b.hour
    || (a.hour == b.hour
        && (a.minute < b.minute
            || (a.minute == b.minute
                && (a.second < b.second
                    || (a.second == b.second && a.microsecond <= b.microsecond)))))
  }

  /** Microseconds since midnight. */
  function MicrosOfDay(t: ClockTime): int {
    ((t.hour * 60 + t.minute) * 60 + t.second) * 1000000 + t.microsecond
  }

  lemma MulMonotone(a: int, b: int, k: int)
    requires a <= b && k >= 0
    ensures a * k <= b * k
  {
    assert b * k - a * k == (b - a) * k;
  }

  /** Two numbers written with a low digit of base k compare as their (high, low) pairs. */
  lemma LexStep(q1: int, u1: int, q2: int, u2: int, k: int)
    requires k > 0 && 0 <= u1 < k && 0 <= u2 < k
    ensures q1 * k + u1 <= q2 * k + u2 <==> q1 < q2 || (q1 == q2 && u1 <= u2)
  {
    if q1 < q2 {
      MulMonotone(q1 + 1, q2, k);
      assert (q1 + 1) * k == q1 * k + k;
    } else if q1 > q2 {
      MulMonotone(q2 + 1, q1, k);
      assert (q2 + 1) * k == q2 * k + k;
    }
  }

  /** The field-by-field order of valid times is the order of their instants in the day. */
  lemma NotAfterIsChronological(a: ClockTime, b: ClockTime)
    requires ValidTime(a) && ValidTime(b)
    ensures NotAfter(a, b) <==> MicrosOfDay(a) <= MicrosOfDay(b)
  {
    var ma, mb := a.hour * 60 + a.minute, b.hour * 60 + b.minute;
    var sa, sb := ma * 60 + a.second, mb * 60 + b.second;
    LexStep(a.hour, a.minute, b.hour, b.minute, 60);
    LexStep(ma, a.second, mb, b.second, 60);
    LexStep(sa, a.microsecond, sb, b.microsecond, 1000000);
    assert ma < mb || (ma == mb && a.second <= b.second) <==> sa <= sb;
    assert ma == mb <==> a.hour == b.hour && a.minute == b.minute by {
      if ma == mb {
        LexStep(a.hour, a.minute, b.hour, b.minute, 60);
        LexStep(b.hour, b.minute, a.hour, a.minute, 60);
      }
    }
    assert sa == sb <==> ma == mb && a.second == b.second by {
      if sa == sb {
        LexStep(ma, a.second, mb, b.second, 60);
        LexStep(mb, b.second, ma, a.second, 60);
      }
    }
  }

  const MarketOpen: ClockTime := ClockTime(9, 30, 0, 0)
  const MarketClose: ClockTime := ClockTime(16, 0, 0, 0)

  datatype MarketStatus = Open | Closed | ClosedWeekend

  /** The text the consumer reports for each status. */
  function StatusText(s: MarketStatus): (text: string)
    ensures s == Open <==> text == "open"
    ensures s == Closed <==> text == "closed"
    ensures s == ClosedWeekend <==> text == "closed (weekend)"
  {
    match s
    case Open => "open"
    case Closed => "closed"
    case ClosedWeekend => "closed (weekend)"
  }

  /** get_market_status with the Eastern weekday (Monday 0 … Sunday 6) and time of day
      passed in: Saturday and Sunday are the weekend whatever the time; on other days the
      market is open from 9:30 to 16:00 with both ends included. */
  function GetMarketStatus(weekday: int, now: ClockTime): (r: MarketStatus)
    ensures weekday >= 5 ==> r == ClosedWeekend
    ensures weekday < 5 ==> r != ClosedWeekend
    ensures weekday < 5 ==> (r == Open <==> NotAfter(MarketOpen, now) && NotAfter(now, MarketClose))
  {
    if weekday >= 5 then ClosedWeekend
    else if NotAfter(MarketOpen, now) && NotAfter(now, MarketClose) then Open
    else Closed
  }

  /** On a weekday the market is open exactly for the instants from 9:30:00 to 16:00:00
      inclusive, counted in microseconds since midnight. */
  lemma MarketOpenByClock(weekday: int, now: ClockTime)
    requires ValidTime(now) && weekday < 5
    ensures GetMarketStatus(weekday, now) == Open <==>
      (9 * 60 + 30) * 60 * 1000000 <= MicrosOfDay(now) <= 16 * 60 * 60 * 1000000
  {
    NotAfterIsChronological(MarketOpen, now);
    NotAfterIsChronological(now, MarketClose);
  }

  /** The ends of the session: open at 9:30 and at 16:00 sharp, closed a microsecond
      outside either. */
  lemma MarketHoursBoundaries(weekday: int)
    requires weekday < 5
    ensures GetMarketStatus(weekday, ClockTime(9, 30, 0, 0)) == Open
    ensures GetMarketStatus(weekday, ClockTime(16, 0, 0, 0)) == Open
    ensures GetMarketStatus(weekday, ClockTime(9, 29, 59, 999999)) == Closed
    ensures GetMarketStatus(weekday, ClockTime(16, 0, 0, 1)) == Closed
  {
  }

  // ---------------------------------------------------------------------------------
  // Incoming messages
  // ---------------------------------------------------------------------------------

  /** A value as `json.loads` returns it: JSON integers become Python ints, other numbers
      floats. */
  datatype Json =
    | JNull
    | JBool(b: bool)
    | JInt(i: int)
    | JFloat(f: real)
    | JStr(s: string)
    | JArr(items: seq<Json>)
    | JObj(fields: map<string, Json>)

  /** `data[0]` when the message is a list, the message itself otherwise; None when the
      list is empty and the indexing raises. */
  function FirstRecord(data: Json): (r: Option<Json>)
    ensures r.None? <==> data == JArr([])
    ensures !data.JArr? ==> r == Some(data)
    ensures data.JArr? && |data.items| > 0 ==> r == Some(data.items[0])
  {
    match data
    case JArr(items) => if |items| == 0 then None else Some(items[0])
    case _ => Some(data)
  }

  /** `d.get(key, default)`. */
  function Get(fields: map<string, Json>, key: string, default: Json): (v: Json)
    ensures key in fields ==> v == fields[key]
    ensures key !in fields ==> v == default
  {
    if key in fields then fields[key] else default
  }

  /** Python's `int(x)` on a float: the integer part, rounding toward zero. */
  function TruncateTowardZero(x: real): (r: int)
    ensures x >= 0.0 ==> 0 <= r && r as real <= x < r as real + 1.0
    ensures x < 0.0 ==> r <= 0 && r as real - 1.0 < x <= r as real
  {
    if x >= 0.0 then x.Floor else -((-x).Floor)
  }

  /** Python's `float(x)`; None where it raises. */
  function ToFloat(v: Json): (r: Option<real>)
    ensures v.JInt? ==> r == Some(v.i as real)
    ensures v.JFloat? ==> r == Some(v.f)
    ensures v.JBool? ==> r == Some(if v.b then 1.0 else 0.0)
    ensures v.JNull? || v.JArr? || v.JObj? ==> r.None?
  {
    match v
    case JInt(i) => Some(i as real)
    case JFloat(f) => Some(f)
    case JBool(b) => Some(if b then 1.0 else 0.0)
    case _ => None
  }

  /** Python's `int(x)`; None where it raises. */
  function ToInt(v: Json): (r: Option<int>)
    ensures v.JInt? ==> r == Some(v.i)
    ensures v.JFloat? ==> r == Some(TruncateTowardZero(v.f))
    ensures v.JBool? ==> r == Some(if v.b then 1 else 0)
    ensures v.JNull? || v.JArr? || v.JObj? ==> r.None?
  {
    match v
    case JInt(i) => Some(i)
    case JFloat(f) => Some(TruncateTowardZero(f))
    case JBool(b) => Some(if b then 1 else 0)
    case _ => None
  }

  /** The events forwarded to the browser. */
  datatype Event =
    | Trade(symbol: Json, price: real, size: int, timestamp: Json, conditions: Json)
    | Quote(symbol: Json, bidPrice: real, bidSize: int, askPrice: real, askSize: int, timestamp: Json)

  /** What handle_market_data does with one message: forwards an event, does nothing, or
      lets an exception escape (an empty list, or a field float/int cannot convert). */
  datatype Handled = Forward(event: Event) | Nothing | Raised

  /** The T field a record is classified by; null when absent. */
  function MessageType(fields: map<string, Json>): Json {
    Get(fields, "T", JNull)
  }

  /** The dispatch on a record's T field: 't' is a trade and 'q' a quote, each numeric
      field 0 when absent; any other T is dropped. */
  function Dispatch(fields: map<string, Json>): (r: Handled)
    ensures r.Forward? && r.event.Trade? <==> MessageType(fields) == JStr("t") && r != Raised
    ensures r.Forward? && r.event.Quote? <==> MessageType(fields) == JStr("q") && r != Raised
    ensures MessageType(fields) != JStr("t") && MessageType(fields) != JStr("q") ==> r == Nothing
    ensures r == Raised <==>
      || (MessageType(fields) == JStr("t")
          && (ToFloat(Get(fields, "p", JInt(0))).None? || ToInt(Get(fields, "s", JInt(0))).None?))
      || (MessageType(fields) == JStr("q")
          && (|| ToFloat(Get(fields, "b", JInt(0))).None? || ToInt(Get(fields, "bs", JInt(0))).None?
              || ToFloat(Get(fields, "a", JInt(0))).None? || ToInt(Get(fields, "as", JInt(0))).None?))
    ensures r.Forward? && r.event.Trade? ==>
      && Some(r.event.price) == ToFloat(Get(fields, "p", JInt(0)))
      && Some(r.event.size) == ToInt(Get(fields, "s", JInt(0)))
      && r.event.symbol == Get(fields, "S", JNull)
      && r.event.timestamp == Get(fields, "t", JNull)
      && r.event.conditions == Get(fields, "c", JArr([]))
    ensures r.Forward? && r.event.Quote? ==>
      && Some(r.event.bidPrice) == ToFloat(Get(fields, "b", JInt(0)))
      && Some(r.event.bidSize) == ToInt(Get(fields, "bs", JInt(0)))
      && Some(r.event.askPrice) == ToFloat(Get(fields, "a", JInt(0)))
      && Some(r.event.askSize) == ToInt(Get(fields, "as", JInt(0)))
      && r.event.symbol == Get(fields, "S", JNull)
      && r.event.timestamp == Get(fields, "t", JNull)
  {
    var kind := MessageType(fields);
    if kind == JStr("t") then
      var price := ToFloat(Get(fields, "p", JInt(0)));
      var size := ToInt(Get(fields, "s", JInt(0)));
      if price.None? || size.None? then Raised
      else Forward(Trade(
        symbol := Get(fields, "S", JNull),
        price := price.value,
        size := size.value,
        timestamp := Get(fields, "t", JNull),
        conditions := Get(fields, "c", JArr([]))))
    else if kind == JStr("q") then
      var bidPrice := ToFloat(Get(fields, "b", JInt(0)));
      var bidSize := ToInt(Get(fields, "bs", JInt(0)));
      var askPrice := ToFloat(Get(fields, "a", JInt(0)));
      var askSize := ToInt(Get(fields, "as", JInt(0)));
      if bidPrice.None? || bidSize.None? || askPrice.None? || askSize.None? then Raised
      else Forward(Quote(
        symbol := Get(fields, "S", JNull),
        bidPrice := bidPrice.value,
        bidSize := bidSize.value,
        askPrice := askPrice.value,
        askSize := askSize.value,
        timestamp := Get(fields, "t", JNull)))
    else Nothing
  }

  /** handle_market_data on a message that parsed to `message` (None: not valid JSON,
      whose decode error is swallowed). */
  function HandleMarketData(message: Option<Json>): (r: Handled)
    ensures message.None? ==> r == Nothing
    ensures message == Some(JArr([])) ==> r == Raised
    ensures message.Some? && FirstRecord(message.value).Some? && !FirstRecord(message.value).value.JObj? ==>
      r == Nothing
    ensures message.Some? && FirstRecord(message.value).Some? && FirstRecord(message.value).value.JObj? ==>
      r == Dispatch(FirstRecord(message.value).value.fields)
  {
    match message
    case None => Nothing
    case Some(data) =>
      match FirstRecord(data)
      case None => Raised
      case Some(record) =>
        if record.JObj? then Dispatch(record.fields) else Nothing
  }

  /** A list message is handled as its first element, provided that element is not itself
      a list (only one level of list is unwrapped). */
  lemma ListReducedToFirst(first: Json, rest: seq<Json>)
    requires !first.JArr?
    ensures HandleMarketData(Some(JArr([first] + rest))) == HandleMarketData(Some(first))
  {
  }

  /** A list whose first element is again a list produces nothing. */
  lemma NestedListIgnored(inner: seq<Json>, rest: seq<Json>)
    ensures HandleMarketData(Some(JArr([JArr(inner)] + rest))) == Nothing
  {
  }

  /** A trade with no price and no size is forwarded with both at 0. */
  lemma TradeDefaults(fields: map<string, Json>)
    requires MessageType(fields) == JStr("t") && "p" !in fields && "s" !in fields
    ensures HandleMarketData(Some(JObj(fields))).Forward?
    ensures HandleMarketData(Some(JObj(fields))).event == Trade(Get(fields, "S", JNull), 0.0, 0, Get(fields, "t", JNull), Get(fields, "c", JArr([])))
  {
  }

  /** A quote with none of its numeric fields is forwarded with all four at 0. */
  lemma QuoteDefaults(fields: map<string, Json>)
    requires MessageType(fields) == JStr("q")
    requires "b" !in fields && "bs" !in fields && "a" !in fields && "as" !in fields
    ensures HandleMarketData(Some(JObj(fields))) == Forward(Quote(Get(fields, "S", JNull), 0.0, 0, 0.0, 0, Get(fields, "t", JNull)))
  {
  }

  /** _is_success_response: true exactly when the first record is an object whose T is
      "success"; an unparsable message, an empty list, or a record without `.get` (the bare
      `except` swallows the error) gives false. */
  function IsSuccessResponse(message: Option<Json>): (ok: bool)
    ensures ok <==>
      message.Some? && FirstRecord(message.value).Some? && FirstRecord(message.value).value.JObj?
      && MessageType(FirstRecord(message.value).value.fields) == JStr("success")
  {
    match message
    case None => false
    case Some(data) =>
      match FirstRecord(data)
      case None => false
      case Some(record) => record.JObj? && MessageType(record.fields) == JStr("success")
  }

  /** An authentication acknowledgement is never forwarded as market data, and whatever is
      forwarded came from a record that is not one. */
  lemma SuccessNeverForwarded(message: Option<Json>)
    ensures IsSuccessResponse(message) ==> HandleMarketData(message) == Nothing
    ensures HandleMarketData(message).Forward? ==> !IsSuccessResponse(message)
  {
  }
}
