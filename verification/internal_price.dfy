/**
 The price resolver the pipeline uses: the ticker-to-id index built from CoinGecko's coin
 list, and historical prices that treat a coin without market data as priced at zero.
 */
module InternalPrice {
  import opened Wrappers
  import Text
  import opened CoinGecko

  // ---------------------------------------------------------------- the coin index

  /** One entry of CoinGecko's coin list. */
  datatype CoinInfo = CoinInfo(id: string, symbol: string, name: string)

  const Matic: string := "MATIC"
  const MaticNetwork: string := "matic-network"

  function Ticker(c: CoinInfo): string
  {
    Text.Upper(c.symbol)
  }

  /** A coin may claim its ticker unless the ticker is MATIC and the coin is not "matic-network". */
  predicate Admissible(c: CoinInfo)
  {
    Ticker(c) != Matic || c.id == MaticNetwork
  }

  /** Position `j` holds the first admissible coin whose ticker is `ticker`. */
  ghost predicate FirstFor(coins: seq<CoinInfo>, ticker: string, j: int)
  {
    && 0 <= j < |coins|
    && Admissible(coins[j]) && Ticker(coins[j]) == ticker
    && forall k :: 0 <= k < j ==> !(Admissible(coins[k]) && Ticker(coins[k]) == ticker)
  }

  ghost predicate Claims(coins: seq<CoinInfo>, ticker: string)
  {
    exists j :: 0 <= j < |coins| && Admissible(coins[j]) && Ticker(coins[j]) == ticker
  }

  /**
   `mapCoinsList`: every ticker some admissible coin has is a key, and it maps to the id
   of the first admissible coin in listing order with that ticker; later coins are
   ignored.
   */
  function MapCoinsList(coins: seq<CoinInfo>): (index: map<string, string>)
    ensures forall t :: t in index <==> Claims(coins, t)
    ensures forall t :: t in index ==> exists j :: FirstFor(coins, t, j) && index[t] == coins[j].id
  {
    if coins == [] then map[]
    else
      var init := coins[..|coins| - 1];
      var coin := coins[|coins| - 1];
      var index0 := MapCoinsList(init);
      assert forall j :: 0 <= j < |init| ==> init[j] == coins[j];
      var symbol := Ticker(coin);
      if symbol == Matic && coin.id != MaticNetwork then
        index0
      else if symbol in index0 then
        index0
      else
        index0[symbol := coin.id]
  }

  /** The first claimant of a ticker is unique. */
  lemma FirstForUnique(coins: seq<CoinInfo>, ticker: string, i: int, j: int)
    requires FirstFor(coins, ticker, i) && FirstFor(coins, ticker, j)
    ensures i == j
  {
  }

  /** The index entry of a ticker is the id of the first coin, in listing order, that may claim it. */
  lemma FirstSeenWins(coins: seq<CoinInfo>, j: int)
    requires 0 <= j < |coins| && Admissible(coins[j])
    requires forall k :: 0 <= k < j ==> !(Admissible(coins[k]) && Ticker(coins[k]) == Ticker(coins[j]))
    ensures Ticker(coins[j]) in MapCoinsList(coins)
    ensures MapCoinsList(coins)[Ticker(coins[j])] == coins[j].id
  {
    var index := MapCoinsList(coins);
    var t := Ticker(coins[j]);
    assert FirstFor(coins, t, j);
    var i :| FirstFor(coins, t, i) && index[t] == coins[i].id;
    FirstForUnique(coins, t, i, j);
  }

  /**
   The MATIC override: MATIC is indexed exactly when the list holds a coin with ticker
   MATIC and id "matic-network", and it then maps to "matic-network" whatever the order.
   */
  lemma MaticIsCanonical(coins: seq<CoinInfo>)
    ensures Matic in MapCoinsList(coins) <==>
              exists c :: c in coins && Ticker(c) == Matic && c.id == MaticNetwork
    ensures Matic in MapCoinsList(coins) ==> MapCoinsList(coins)[Matic] == MaticNetwork
  {
    var index := MapCoinsList(coins);
    if c :| c in coins && Ticker(c) == Matic && c.id == MaticNetwork {
      var j :| 0 <= j < |coins| && coins[j] == c;
      assert Claims(coins, Matic);
    }
  }

  /** Reordering the coin list never changes what MATIC maps to. */
  lemma MaticIgnoresOrder(coins: seq<CoinInfo>, reordered: seq<CoinInfo>)
    requires multiset(coins) == multiset(reordered)
    ensures Matic in MapCoinsList(coins) <==> Matic in MapCoinsList(reordered)
    ensures Matic in MapCoinsList(coins) ==> MapCoinsList(coins)[Matic] == MapCoinsList(reordered)[Matic]
  {
    MaticIsCanonical(coins);
    MaticIsCanonical(reordered);
    assert forall c :: c in coins <==> c in reordered by {
      forall c ensures c in coins <==> c in reordered {
        assert c in coins <==> c in multiset(coins);
        assert c in reordered <==> c in multiset(reordered);
      }
    }
  }

  /** Appending one coin to the list: the index of the longer list, from the index of the shorter. */
  lemma MapCoinsListSnoc(init: seq<CoinInfo>, coin: CoinInfo)
    ensures MapCoinsList(init + [coin]) ==
              if !Admissible(coin) || Ticker(coin) in MapCoinsList(init) then MapCoinsList(init)
              else MapCoinsList(init)[Ticker(coin) := coin.id]
  {
    assert (init + [coin])[..|init|] == init;
  }

  /** The tickers of the client test's coins. */
  lemma ExampleTickers()
    ensures Text.Upper("matic") == Matic && Text.Upper("usdc") == "USDC"
  {
    assert Text.Upper("matic") == "MATIC";
    assert Text.Upper("usdc") == "USDC";
  }

  /** The coin list of the client test: the bridged MATIC loses to "matic-network". */
  lemma CoinsListExample()
    ensures MapCoinsList([CoinInfo("bridged-matic-manta-pacific", "matic", "Bridged MATIC (Manta Pacific)"),
                          CoinInfo("matic-network", "matic", "Polygon"),
                          CoinInfo("usd-coin", "usdc", "USD Coin")])
            == map["MATIC" := "matic-network", "USDC" := "usd-coin"]
  {
    var bridged := CoinInfo("bridged-matic-manta-pacific", "matic", "Bridged MATIC (Manta Pacific)");
    var polygon := CoinInfo("matic-network", "matic", "Polygon");
    var usdc := CoinInfo("usd-coin", "usdc", "USD Coin");
    ExampleTickers();
    assert MapCoinsList([bridged]) == map[] by {
      MapCoinsListSnoc([], bridged);
      assert [] + [bridged] == [bridged];
    }
    assert MapCoinsList([bridged, polygon]) == map[Matic := MaticNetwork] by {
      MapCoinsListSnoc([bridged], polygon);
      assert [bridged] + [polygon] == [bridged, polygon];
    }
    MapCoinsListSnoc([bridged, polygon], usdc);
    assert [bridged, polygon] + [usdc] == [bridged, polygon, usdc];
  }

  // ---------------------------------------------------------------- one price

  /**
   `GetHistoricalPrice`: a fetch error or a classifier error comes back with price 0,
   except missing market data, which comes back as price 0 WITHOUT an error; otherwise
   the document's positive USD price.
   */
  function GetHistoricalPrice(fetch: Fetcher, coinId: string, date: int): (r: PriceReply)
    ensures fetch(BuildCoinGeckoURL(coinId, date)).Err? ==>
              r == PriceReply(0.0, Some(fetch(BuildCoinGeckoURL(coinId, date)).error))
    ensures fetch(BuildCoinGeckoURL(coinId, date)).Ok? ==>
              var parsed := ParsePriceFromResponse(fetch(BuildCoinGeckoURL(coinId, date)).value);
              && (parsed.Ok? ==> r == PriceReply(parsed.value, None))
              && (parsed == Err(MissingMarketData) ==> r == PriceReply(0.0, None))
              && (parsed.Err? && parsed.error != MissingMarketData ==> r == PriceReply(0.0, Some(parsed.error)))
    ensures r.err.Some? ==> r.price == 0.0
    ensures r.price >= 0.0
  {
    var url := BuildCoinGeckoURL(coinId, date);
    match fetch(url)
    case Err(e) => PriceReply(0.0, Some(e))
    case Ok(body) =>
      match ParsePriceFromResponse(body)
      case Err(e) =>
        if e == MissingMarketData then PriceReply(0.0, None) else PriceReply(0.0, Some(e))
      case Ok(price) => PriceReply(price, None)
  }

  /**
   The sentinel is the only way to a zero price without an error: a reply of (0, nil)
   means the response was fetched but lacked market data.
   */
  lemma ZeroWithoutErrorMeansNoMarketData(fetch: Fetcher, coinId: string, date: int)
    ensures GetHistoricalPrice(fetch, coinId, date) == PriceReply(0.0, None) <==>
              && fetch(BuildCoinGeckoURL(coinId, date)).Ok?
              && ParsePriceFromResponse(fetch(BuildCoinGeckoURL(coinId, date)).value) == Err(MissingMarketData)
  {
  }

  // ---------------------------------------------------------------- many prices

  /** The error `GetHistoricalPrices` returns: which coin failed, and why. */
  datatype PricesError = CoinFailed(coinId: string, cause: PriceError)

  /** Anything that prices one coin id: the receiver's own `GetHistoricalPrice`, in the source. */
  type Pricer = string -> PriceReply

  /** The client's `GetHistoricalPrice` at a fixed fetch function and date. */
  function Replies(fetch: Fetcher, date: int): (price: Pricer)
    ensures forall id :: price(id).price >= 0.0
  {
    id => GetHistoricalPrice(fetch, id, date)
  }

  /** `coinIds[j]` is priced without error for every j < i. */
  ghost predicate AllPricedBefore(price: Pricer, coinIds: seq<string>, i: int)
  {
    forall j :: 0 <= j < i && j < |coinIds| ==> price(coinIds[j]).err.None?
  }

  /** `coinIds[i]` is the first id that fails, and `e` reports it. */
  ghost predicate FirstFailure(price: Pricer, coinIds: seq<string>, i: int, e: PricesError)
  {
    && 0 <= i < |coinIds|
    && AllPricedBefore(price, coinIds, i)
    && price(coinIds[i]).err.Some?
    && e == CoinFailed(coinIds[i], price(coinIds[i]).err.value)
  }

  /** The loop state after the first `i` ids priced without error. */
  ghost predicate PricedPrefix(price: Pricer, coinIds: seq<string>, i: int, prices: map<string, real>)
  {
    && 0 <= i <= |coinIds|
    && AllPricedBefore(price, coinIds, i)
    && prices.Keys == (set j | 0 <= j < i :: coinIds[j])
    && forall id :: id in prices ==> prices[id] == price(id).price
  }

  /**
   The loop of `GetHistoricalPrices`: all or nothing. It fails exactly when some id fails,
   and then reports the first failing id in list order with that id's error; otherwise its
   keys are exactly the ids and each value is that id's price.
   */
  method CollectPrices(price: Pricer, coinIds: seq<string>) returns (r: Result<map<string, real>, PricesError>)
    ensures r.Ok? <==> AllPricedBefore(price, coinIds, |coinIds|)
    ensures r.Ok? ==> r.value.Keys == set id | id in coinIds
    ensures r.Ok? ==> forall id :: id in r.value ==> r.value[id] == price(id).price
    ensures r.Err? ==> exists i :: FirstFailure(price, coinIds, i, r.error)
  {
    var prices: map<string, real> := map[];
    for i := 0 to |coinIds|
      invariant PricedPrefix(price, coinIds, i, prices)
    {
      var reply := price(coinIds[i]);
      if reply.err.Some? {
        r := Err(CoinFailed(coinIds[i], reply.err.value));
        assert FirstFailure(price, coinIds, i, r.error);
        return;
      }
      prices := prices[coinIds[i] := reply.price];
      assert prices.Keys == (set j | 0 <= j < i + 1 :: coinIds[j]);
    }
    assert (set j | 0 <= j < |coinIds| :: coinIds[j]) == set id | id in coinIds;
    return Ok(prices);
  }

  /**
   `GetHistoricalPrices`: the loop above over this client's `GetHistoricalPrice`; every
   price it returns is non-negative (zero for coins without market data).
   */
  method GetHistoricalPrices(fetch: Fetcher, coinIds: seq<string>, date: int)
    returns (r: Result<map<string, real>, PricesError>)
    ensures r.Ok? <==> AllPricedBefore(Replies(fetch, date), coinIds, |coinIds|)
    ensures r.Ok? ==> r.value.Keys == set id | id in coinIds
    ensures r.Ok? ==> forall id :: id in r.value ==> r.value[id] == Replies(fetch, date)(id).price >= 0.0
    ensures r.Err? ==> exists i :: FirstFailure(Replies(fetch, date), coinIds, i, r.error)
  {
    r := CollectPrices(Replies(fetch, date), coinIds);
  }

  /** A mock whose responses depend only on the URL: SFL on day `date` is priced, anything else returns an empty body. */
  function ExampleFetcher(date: int): Fetcher
  {
    url => if url == BuildCoinGeckoURL("SFL", date) then Ok(PriceDocument(map["usd" := Number(123.45)]))
           else Ok(Undecodable)
  }

  lemma ExampleReplies(date: int)
    ensures GetHistoricalPrice(ExampleFetcher(date), "SFL", date) == PriceReply(123.45, None)
    ensures GetHistoricalPrice(ExampleFetcher(date), "ETH", date) == PriceReply(0.0, Some(InvalidResponse))
  {
    UrlNamesCoinAndDay("ETH", date, "SFL", date);
    ClassifierExamples();
  }

  /** One coin with a price and one with an empty body: the whole request fails, naming the second. */
  lemma OneBadCoinSpoilsTheBatch(date: int, r: Result<map<string, real>, PricesError>)
    requires r.Ok? <==> AllPricedBefore(Replies(ExampleFetcher(date), date), ["SFL", "ETH"], 2)
    requires r.Err? ==> exists i :: FirstFailure(Replies(ExampleFetcher(date), date), ["SFL", "ETH"], i, r.error)
    ensures r == Err(CoinFailed("ETH", InvalidResponse))
  {
    ExampleReplies(date);
    var ids := ["SFL", "ETH"];
    assert ids[0] == "SFL" && ids[1] == "ETH";
  }
}
