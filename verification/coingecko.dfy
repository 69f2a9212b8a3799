/**
 What the two CoinGecko clients share, line for line: the history URL, the status check
 of the production fetch, and the classification of a decoded response body into a
 positive USD price or one of three failures.
 */
module CoinGecko {
  import opened Wrappers
  import Text
  import Calendar

  /** A decoded JSON value; numbers are the `float64` values `encoding/json` produces. */
  datatype Json =
    | Null
    | Bool(b: bool)
    | Number(n: real)
    | Str(s: string)
    | Array(items: seq<Json>)
    | Object(fields: map<string, Json>)

  /**
   A response body as the decoder meets it: absent (`resp.Body == nil`), a byte stream
   whose first value is not well-formed JSON (this includes the empty stream), or one
   whose first value decodes to `json`.
   */
  datatype Body = NoBody | Undecodable | Document(json: Json)

  /**
   The failures a price request can end in. `Transport` and `BadStatus` come from the
   production fetch; the last three are the sentinels the classifier wraps with `%w`.
   */
  datatype PriceError =
    | Transport
    | BadStatus(status: int)
    | InvalidResponse
    | MissingMarketData
    | MissingUsdPrice

  /** What `http.Get` hands back: a network error, or a response with a status code and a body. */
  datatype HttpOutcome = NetworkFailure | Response(status: int, body: Body)

  /** The pair `(float64, error)` a price request returns. */
  datatype PriceReply = PriceReply(price: real, err: Option<PriceError>)

  /** The client's `fetchFunc`: from a URL to a response body or an error. */
  type Fetcher = string -> Result<Body, PriceError>

  // ---------------------------------------------------------------- the URL

  const HistoryPrefix: string := "https://api.coingecko.com/api/v3/coins/"
  const HistoryQuery: string := "/history?date="

  /**
   `buildCoinGeckoURL`: the fixed prefix, the coin id, "/history?date=", and the day of
   `date` in the layout "02-01-2006", which is at least ten characters wide.
   */
  function BuildCoinGeckoURL(coinId: string, date: int): (url: string)
    ensures HistoryPrefix <= url
    ensures HistoryPrefix + coinId + HistoryQuery <= url
    ensures |url| >= |HistoryPrefix + coinId + HistoryQuery| + 10
  {
    Calendar.YearTextShape(Calendar.CivilDate(date).year);
    HistoryPrefix + coinId + HistoryQuery + Calendar.FormatDmy(Calendar.CivilDate(date))
  }

  /**
   A URL names exactly one (coin id, UTC day): two requests share a URL precisely when
   they ask for the same coin on the same day. This holds for every id, even one that
   itself contains '='.
   */
  lemma UrlNamesCoinAndDay(id1: string, date1: int, id2: string, date2: int)
    ensures BuildCoinGeckoURL(id1, date1) == BuildCoinGeckoURL(id2, date2) <==>
              id1 == id2 && Calendar.DayNumber(date1) == Calendar.DayNumber(date2)
  {
    var d1 := Calendar.CivilDate(date1);
    var d2 := Calendar.CivilDate(date2);
    Calendar.CivilDateSameDay(date1, date2);
    Calendar.CivilDateValid(date1);
    Calendar.CivilDateValid(date2);
    if BuildCoinGeckoURL(id1, date1) == BuildCoinGeckoURL(id2, date2) {
      Calendar.FormatDmyInjective(d1, d2);
      Calendar.FormatDmyInjective(d2, d1);
      Text.FramedInjective(HistoryPrefix, id1, id2, HistoryQuery, Calendar.FormatDmy(d1), Calendar.FormatDmy(d2), '=');
    }
  }

  /** The request for coin "SFL" at any instant of 2024-04-15 (UTC). */
  lemma UrlExample(date: int)
    requires 1713139200 <= date < 1713139200 + Calendar.SecondsPerDay
    ensures BuildCoinGeckoURL("SFL", date) ==
              "https://api.coingecko.com/api/v3/coins/" + "SFL" + "/history?date=" + "15-04-2024"
  {
    Calendar.April15Of2024(date);
    Calendar.April15Of2024Printed();
  }

  // ---------------------------------------------------------------- the status check

  /**
   `fetchResponse`: a network error fails, a status outside [200, 300) fails with that
   status, and every 2xx response passes its body through.
   */
  function FetchResponse(outcome: HttpOutcome): (r: Result<Body, PriceError>)
    ensures r.Ok? <==> outcome.Response? && 200 <= outcome.status < 300
    ensures r.Ok? ==> r.value == outcome.body
    ensures outcome.NetworkFailure? ==> r == Err(Transport)
    ensures outcome.Response? && r.Err? ==> r == Err(BadStatus(outcome.status))
  {
    match outcome
    case NetworkFailure => Err(Transport)
    case Response(status, body) =>
      if status < 200 || status >= 300 then Err(BadStatus(status)) else Ok(body)
  }

  /**
   The client `NewCoinGeckoAPI` builds, seen from the GET it wraps: a URL yields its body
   exactly when the GET answered with a 2xx status; a network error becomes `Transport`
   and any other status becomes `BadStatus` carrying that status.
   */
  function ProductionFetcher(get: string -> HttpOutcome): (f: Fetcher)
    ensures forall url :: f(url).Ok? <==> get(url).Response? && 200 <= get(url).status < 300
    ensures forall url :: f(url).Ok? ==> f(url).value == get(url).body
    ensures forall url :: get(url).NetworkFailure? ==> f(url) == Err(Transport)
    ensures forall url :: get(url).Response? && f(url).Err? ==> f(url) == Err(BadStatus(get(url).status))
  {
    url => FetchResponse(get(url))
  }

  // ---------------------------------------------------------------- the classifier

  /** The value found by following object fields along `path`, if every step exists. */
  function At(j: Json, path: seq<string>): Option<Json>
  {
    if path == [] then Some(j)
    else if j.Object? && path[0] in j.fields then At(j.fields[path[0]], path[1..])
    else None
  }

  predicate IsObject(v: Option<Json>)
  {
    v.Some? && v.value.Object?
  }

  predicate IsPositiveNumber(v: Option<Json>)
  {
    v.Some? && v.value.Number? && v.value.n > 0.0
  }

  /** Decoding into `map[string]any` succeeds on an object, and on `null`, which leaves the map nil. */
  predicate Decodable(body: Body)
  {
    body.Document? && (body.json.Null? || body.json.Object?)
  }

  /** The map the decoder fills, seen as a JSON object (a nil map is an empty one). */
  function Root(body: Body): Json
    requires Decodable(body)
  {
    if body.json.Null? then Object(map[]) else body.json
  }

  const MarketData: seq<string> := ["market_data"]
  const CurrentPrice: seq<string> := ["market_data", "current_price"]
  const UsdPrice: seq<string> := ["market_data", "current_price", "usd"]

  /** One step along a path. */
  lemma AtStep(j: Json, k: string, rest: seq<string>)
    ensures At(j, [k] + rest) == if j.Object? && k in j.fields then At(j.fields[k], rest) else None
  {
    assert ([k] + rest)[1..] == rest;
  }

  /** The three paths the classifier reads, expressed through `ObjectField`. */
  lemma PricePaths(m: map<string, Json>)
    ensures IsObject(At(Object(m), CurrentPrice)) <==>
              ObjectField(m, "market_data").Some?
              && ObjectField(ObjectField(m, "market_data").value, "current_price").Some?
    ensures IsObject(At(Object(m), CurrentPrice)) ==>
              var cp := ObjectField(ObjectField(m, "market_data").value, "current_price").value;
              At(Object(m), UsdPrice) == if "usd" in cp then Some(cp["usd"]) else None
    ensures !IsObject(At(Object(m), CurrentPrice)) ==> At(Object(m), UsdPrice) == None
  {
    assert CurrentPrice == ["market_data"] + ["current_price"];
    assert UsdPrice == ["market_data"] + (["current_price"] + ["usd"]);
    AtStep(Object(m), "market_data", ["current_price"]);
    AtStep(Object(m), "market_data", ["current_price"] + ["usd"]);
    if "market_data" in m {
      var md := m["market_data"];
      AtStep(md, "current_price", []);
      AtStep(md, "current_price", ["usd"]);
      if md.Object? && "current_price" in md.fields {
        AtStep(md.fields["current_price"], "usd", []);
      }
    }
  }

  /** `v, ok := m[k].(map[string]any)`: the field's members when it is an object. */
  function ObjectField(m: map<string, Json>, k: string): Option<map<string, Json>>
  {
    if k in m && m[k].Object? then Some(m[k].fields) else None
  }

  /**
   `parsePriceFromResponse`, identical in both clients: an absent or undecodable body is
   an invalid response; a `market_data` or `current_price` that is not an object is
   missing market data; a `usd` that is not a number, or is not positive, is a missing
   USD price; anything else is the USD price, which is then positive.
   */
  function ParsePriceFromResponse(body: Body): (r: Result<real, PriceError>)
    ensures r.Ok? <==> Decodable(body) && IsPositiveNumber(At(Root(body), UsdPrice))
    ensures r.Ok? ==> r.value > 0.0 && At(Root(body), UsdPrice) == Some(Number(r.value))
    ensures r == Err(InvalidResponse) <==> !Decodable(body)
    ensures r == Err(MissingMarketData) <==>
              Decodable(body) && !IsObject(At(Root(body), CurrentPrice))
    ensures r == Err(MissingUsdPrice) <==>
              Decodable(body) && IsObject(At(Root(body), CurrentPrice))
              && !IsPositiveNumber(At(Root(body), UsdPrice))
    ensures r.Err? ==> r.error in {InvalidResponse, MissingMarketData, MissingUsdPrice}
  {
    if body.NoBody? then Err(InvalidResponse)
    else if !Decodable(body) then Err(InvalidResponse)
    else
      var result := if body.json.Null? then map[] else body.json.fields;
      assert Root(body) == Object(result);
      PricePaths(result);
      match ObjectField(result, "market_data")
      case None => Err(MissingMarketData)
      case Some(marketData) =>
        match ObjectField(marketData, "current_price")
        case None => Err(MissingMarketData)
        case Some(currentPrice) =>
          if "usd" in currentPrice && currentPrice["usd"].Number? then
            var usdPrice := currentPrice["usd"].n;
            if usdPrice <= 0.0 then Err(MissingUsdPrice) else Ok(usdPrice)
          else
            Err(MissingUsdPrice)
  }

  /** Only the path market_data.current_price.usd matters: fields elsewhere never change the outcome. */
  lemma ClassificationSeesOnlyThePricePath(b1: Body, b2: Body)
    requires Decodable(b1) && Decodable(b2)
    requires At(Root(b1), CurrentPrice).Some? <==> At(Root(b2), CurrentPrice).Some?
    requires IsObject(At(Root(b1), CurrentPrice)) <==> IsObject(At(Root(b2), CurrentPrice))
    requires At(Root(b1), UsdPrice) == At(Root(b2), UsdPrice)
    ensures ParsePriceFromResponse(b1) == ParsePriceFromResponse(b2)
  {
  }

  function PriceDocument(currentPrice: map<string, Json>): Body
  {
    Document(Object(map["market_data" := Object(map["current_price" := Object(currentPrice)])]))
  }

  /** The responses the client tests feed the classifier, with the outcomes they expect. */
  lemma ClassifierExamples()
    ensures ParsePriceFromResponse(PriceDocument(map["usd" := Number(123.45)])) == Ok(123.45)
    ensures ParsePriceFromResponse(Undecodable) == Err(InvalidResponse)
    ensures ParsePriceFromResponse(NoBody) == Err(InvalidResponse)
    ensures ParsePriceFromResponse(Document(Object(map["something_else" := Object(map[])]))) == Err(MissingMarketData)
    ensures ParsePriceFromResponse(Document(Object(map["market_data" := Object(map["something_else" := Object(map[])])])))
            == Err(MissingMarketData)
    ensures ParsePriceFromResponse(PriceDocument(map["eur" := Number(123.45)])) == Err(MissingUsdPrice)
    ensures ParsePriceFromResponse(PriceDocument(map["usd" := Str("invalid")])) == Err(MissingUsdPrice)
    ensures ParsePriceFromResponse(PriceDocument(map["usd" := Number(-50.0)])) == Err(MissingUsdPrice)
    ensures ParsePriceFromResponse(Document(Null)) == Err(MissingMarketData)
    ensures ParsePriceFromResponse(Document(Array([]))) == Err(InvalidResponse)
  {
    assert At(Root(PriceDocument(map["eur" := Number(123.45)])), UsdPrice) == None;
  }
}
