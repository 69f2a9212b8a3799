/**
 The exported price client: the same URL, status check and classifier as the internal
 one, but every failure, missing market data included, is returned as an error.
 */
module PkgPrice {
  import opened Wrappers
  import opened CoinGecko
  import InternalPrice

  /**
   `GetHistoricalPrice` of the exported client: the positive USD price of the fetched
   document, or price 0 with the fetch error or the classifier's error.
   */
  function GetHistoricalPrice(fetch: Fetcher, symbol: string, date: int): (r: PriceReply)
    ensures r.err.None? <==>
              fetch(BuildCoinGeckoURL(symbol, date)).Ok?
              && ParsePriceFromResponse(fetch(BuildCoinGeckoURL(symbol, date)).value).Ok?
    ensures r.err.None? ==> r.price > 0.0
    ensures r.err.Some? ==> r.price == 0.0
    ensures fetch(BuildCoinGeckoURL(symbol, date)).Err? ==>
              r.err == Some(fetch(BuildCoinGeckoURL(symbol, date)).error)
  {
    var url := BuildCoinGeckoURL(symbol, date);
    match fetch(url)
    case Err(e) => PriceReply(0.0, Some(e))
    case Ok(body) =>
      match ParsePriceFromResponse(body)
      case Err(e) => PriceReply(0.0, Some(e))
      case Ok(price) => PriceReply(price, None)
  }

  /**
   The two clients agree on every request except one: a fetched document without market
   data is (0, nil) for the internal client and (0, ErrMissingMarketData) for this one.
   */
  lemma SentinelContrast(fetch: Fetcher, coinId: string, date: int)
    ensures InternalPrice.GetHistoricalPrice(fetch, coinId, date) != GetHistoricalPrice(fetch, coinId, date) <==>
              && fetch(BuildCoinGeckoURL(coinId, date)).Ok?
              && ParsePriceFromResponse(fetch(BuildCoinGeckoURL(coinId, date)).value) == Err(MissingMarketData)
    ensures InternalPrice.GetHistoricalPrice(fetch, coinId, date) != GetHistoricalPrice(fetch, coinId, date) ==>
              && InternalPrice.GetHistoricalPrice(fetch, coinId, date) == PriceReply(0.0, None)
              && GetHistoricalPrice(fetch, coinId, date) == PriceReply(0.0, Some(MissingMarketData))
  {
  }

  /** A price of zero always comes with an error here: this client has no sentinel. */
  lemma NoSilentZero(fetch: Fetcher, symbol: string, date: int)
    ensures GetHistoricalPrice(fetch, symbol, date).price == 0.0 <==> GetHistoricalPrice(fetch, symbol, date).err.Some?
  {
  }
}
