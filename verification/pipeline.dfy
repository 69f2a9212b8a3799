/**
 The glue of the pipeline's entry point: which CoinGecko ids the daily batch asks for,
 whether a batch runs at all, and how prices keyed by coin id are turned back into
 prices keyed by ticker for the aggregator.
 */
module Pipeline {
  import opened Wrappers
  import opened Collections
  import Token
  import Utils
  import InternalPrice

  // ---------------------------------------------------------------- tickers to coin ids

  /** The coin id a traded symbol resolves to, if its canonical ticker is in the index. */
  function IdFor(index: map<string, string>, token: string): Option<string>
  {
    var ticker := Token.CanonicalSymbol(token);
    if ticker in index then Some(index[ticker]) else None
  }

  /**
   The resolution loop of the entry point: each token, upper-cased and normalized, is
   looked up in the ticker index; a hit appends its coin id, a miss is only logged.
   Ids keep the order of the tokens, and two tokens naming one coin give it twice.
   */
  function ResolveCoinIds(tokens: seq<string>, index: map<string, string>): (ids: seq<string>)
    ensures |ids| <= |tokens|
    ensures forall id :: id in ids <==> exists t :: t in tokens && IdFor(index, t) == Some(id)
    ensures forall id :: id in ids ==> id in index.Values
  {
    if tokens == [] then []
    else
      var rest := ResolveCoinIds(tokens[1..], index);
      assert forall t :: t in tokens <==> t == tokens[0] || t in tokens[1..];
      match IdFor(index, tokens[0])
      case Some(id) => [id] + rest
      case None => rest
  }

  /** Resolving a concatenation resolves each part: the loop handles tokens one at a time. */
  lemma {:induction false} ResolveAppend(a: seq<string>, b: seq<string>, index: map<string, string>)
    ensures ResolveCoinIds(a + b, index) == ResolveCoinIds(a, index) + ResolveCoinIds(b, index)
  {
    if a != [] {
      assert (a + b)[1..] == a[1..] + b;
      ResolveAppend(a[1..], b, index);
    } else {
      assert a + b == b;
    }
  }

  /** When every token resolves, no token is dropped: one id per token, position by position. */
  lemma {:induction false} ResolveAllHits(tokens: seq<string>, index: map<string, string>)
    requires forall t :: t in tokens ==> IdFor(index, t).Some?
    ensures |ResolveCoinIds(tokens, index)| == |tokens|
    ensures forall i :: 0 <= i < |tokens| ==> Some(ResolveCoinIds(tokens, index)[i]) == IdFor(index, tokens[i])
  {
    if tokens != [] {
      assert tokens[0] in tokens;
      ResolveAllHits(tokens[1..], index);
      var ids := ResolveCoinIds(tokens, index);
      assert ids == [IdFor(index, tokens[0]).value] + ResolveCoinIds(tokens[1..], index);
      forall i | 1 <= i < |tokens| ensures Some(ids[i]) == IdFor(index, tokens[i]) {
        assert tokens[1..][i - 1] == tokens[i];
      }
    }
  }

  /**
   Two spellings of bridged USDC in one batch: both resolve, so the id list names the
   coin twice; the price map later keeps one entry for it.
   */
  lemma DuplicateUsdcExample()
    ensures ResolveCoinIds(["usdc", "USDC.E"], map["USDC" := "usd-coin"]) == ["usd-coin", "usd-coin"]
  {
    assert Token.CanonicalSymbol("usdc") == "USDC" && Token.CanonicalSymbol("USDC.E") == "USDC" by {
      Token.CanonicalMeetsTheTests();
    }
    assert ["usdc", "USDC.E"][1..] == ["USDC.E"];
  }

  /**
   The entry point's guard: with no resolvable token it logs and returns before the
   batch; otherwise the batch gets the resolved ids, which are then non-empty.
   */
  function BatchCoinIds(tokens: seq<string>, index: map<string, string>): (ids: Option<seq<string>>)
    ensures ids.None? <==> forall t :: t in tokens ==> IdFor(index, t).None?
    ensures ids.Some? ==> |ids.value| > 0 && ids.value == ResolveCoinIds(tokens, index)
  {
    var resolved := ResolveCoinIds(tokens, index);
    if |resolved| == 0 then
      None
    else
      assert resolved[0] in resolved;
      Some(resolved)
  }

  // ---------------------------------------------------------------- coin ids back to tickers

  /** `idToSymbolMap[coinID]`: the ticker of an id, or Go's zero value "" when none inverts to it. */
  function SymbolOf(inverse: map<string, string>, id: string): string
  {
    if id in inverse then inverse[id] else ""
  }

  /** What the remapping loop leaves behind, whatever order it walked the prices in. */
  ghost predicate Remapped(prices: map<string, real>, inverse: map<string, string>, symbolPrices: map<string, real>)
  {
    && symbolPrices.Keys == (set id | id in prices :: SymbolOf(inverse, id))
    && forall s :: s in symbolPrices ==>
         exists id :: id in prices && SymbolOf(inverse, id) == s && symbolPrices[s] == prices[id]
  }

  /**
   The remapping loop of the entry point: each price moves from its coin id to the id's
   ticker. When several ids share a ticker (or have none, and share ""), the one visited
   last wins.
   */
  method RemapPrices(prices: map<string, real>, inverse: map<string, string>) returns (symbolPrices: map<string, real>)
    ensures Remapped(prices, inverse, symbolPrices)
  {
    var ids := Enumerate(prices.Keys);
    symbolPrices := map[];
    for i := 0 to |ids|
      invariant symbolPrices.Keys == set j | 0 <= j < i :: SymbolOf(inverse, ids[j])
      invariant forall s :: s in symbolPrices ==>
                  exists id :: id in prices && SymbolOf(inverse, id) == s && symbolPrices[s] == prices[id]
    {
      symbolPrices := symbolPrices[SymbolOf(inverse, ids[i]) := prices[ids[i]]];
    }
    var walked := set j | 0 <= j < |ids| :: SymbolOf(inverse, ids[j]);
    var all := set id | id in prices :: SymbolOf(inverse, id);
    assert walked == all by {
      forall s | s in all ensures s in walked {
        var id :| id in prices && SymbolOf(inverse, id) == s;
        var j :| 0 <= j < |ids| && ids[j] == id;
      }
    }
  }

  /**
   The round trip ticker -> id -> price -> ticker: when the ticker index is one-to-one and
   every priced id came from it, each ticker of the remapped map is in the index and
   carries exactly the price of its own id, so the aggregator's lookup by ticker finds
   the price fetched for that ticker.
   */
  lemma RemapRoundTrip(index: map<string, string>, inverse: map<string, string>,
                       prices: map<string, real>, symbolPrices: map<string, real>)
    requires Utils.Injective(index) && Utils.Inverts(index, inverse)
    requires prices.Keys <= index.Values
    requires Remapped(prices, inverse, symbolPrices)
    ensures symbolPrices.Keys == (set t | t in index && index[t] in prices)
    ensures forall t :: t in symbolPrices ==> symbolPrices[t] == prices[index[t]]
  {
    forall t | t in symbolPrices ensures t in index && index[t] in prices && symbolPrices[t] == prices[index[t]] {
      var id :| id in prices && SymbolOf(inverse, id) == t && symbolPrices[t] == prices[id];
      assert id in inverse;
    }
    forall t | t in index && index[t] in prices ensures t in symbolPrices {
      var id := index[t];
      assert inverse[id] in index && index[inverse[id]] == id;
      assert SymbolOf(inverse, id) == t;
    }
  }

  /** Without the one-to-one premise a price can land on the empty ticker: an id nobody inverts to. */
  lemma UnknownIdLandsOnEmptyTicker(prices: map<string, real>, inverse: map<string, string>,
                                    symbolPrices: map<string, real>, id: string)
    requires Remapped(prices, inverse, symbolPrices)
    requires id in prices && id !in inverse
    ensures "" in symbolPrices
  {
    assert SymbolOf(inverse, id) == "";
  }

  /**
   The ticker index is one-to-one whenever the coin list names each id once: an id
   claims at most the ticker of its own entry.
   */
  lemma IndexIsOneToOne(coins: seq<InternalPrice.CoinInfo>)
    requires forall i, j :: 0 <= i < j < |coins| ==> coins[i].id != coins[j].id
    ensures Utils.Injective(InternalPrice.MapCoinsList(coins))
  {
    var index := InternalPrice.MapCoinsList(coins);
    forall t1, t2 | t1 in index && t2 in index && index[t1] == index[t2] ensures t1 == t2 {
      var j1 :| InternalPrice.FirstFor(coins, t1, j1) && index[t1] == coins[j1].id;
      var j2 :| InternalPrice.FirstFor(coins, t2, j2) && index[t2] == coins[j2].id;
      assert j1 == j2;
    }
  }
}
