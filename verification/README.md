# marketplace-pipeline, modelled in Dafny

This project models the core of a Go pipeline that turns a day of marketplace events
into per-project USD volumes. The pipeline works in five stages:

1. It collects the currency symbols the transactions mention.
2. It resolves each symbol to a CoinGecko coin id through a ticker index. The index is
   built from CoinGecko's coin list, and the MATIC ticker always goes to
   "matic-network".
3. It asks CoinGecko for each coin's price on the day. A coin without market data
   counts as priced at zero. One failed coin spoils the whole batch.
4. It stores the prices as ClickHouse rows and as a CSV object in MinIO. A date that
   already has rows is refused.
5. It groups transactions by (UTC day, project). Each transaction's wei amount is
   converted to USD at the price of its ticker.

## How the model is built

Each Go function is modelled as a pure Dafny function or method over immutable values.

- **Time.** Instants are Unix seconds. `Calendar` rebuilds what `time.Time` does with
  them: `Truncate(24 * time.Hour)`, the civil date, and the two layouts "2006-01-02"
  and "02-01-2006".
- **Map order.** Go's map iteration order is unspecified. Wherever a result depends on
  it, the order is an explicit listing of the map's keys (`Collections.Enumerate`, or
  an `order` parameter). Contracts then hold for every such order.
- **Parameters for I/O.** Things the code only calls become parameters:
  - the HTTP fetch (`Fetcher`);
  - `strconv.ParseFloat` (`DecimalParser`);
  - the price API behind the batch (`PriceSource`);
  - the ClickHouse and MinIO stores (`Store`), together with switches that make each
    database or upload call fail (`Faults`).
- **Modules.**

  | module | models |
  |---|---|
  | `Models` | the shared records |
  | `Aggregator` | the grouping |
  | `CoinGecko` | the URL, the status check and the response classifier, which both clients share |
  | `InternalPrice` | the client the pipeline uses |
  | `PkgPrice` | the public client |
  | `Token` | the alias table |
  | `Utils` | the helper package |
  | `Batch` | the daily job |
  | `Pipeline` | the glue in the entry point |
  | `Text`, `Calendar`, `Collections`, `Wrappers` | support modules |

## Model

| member | source | states |
|---|---|---|
| Aggregator.NormalizeSymbol | internal/aggregator/aggregator.go:94-97 | the result is the upper-cased text before the first '.', character by character, and holds no '.' |
| Aggregator.NormalizeSymbolIdempotent | internal/aggregator/aggregator.go:94-97 | normalizing a normalized symbol changes nothing |
| Aggregator.ParseCurrencyValue | internal/aggregator/aggregator.go:49-56 | succeeds exactly when the decimal parses; the result times 10^18 is the parsed wei amount; a failure names the value |
| Aggregator.GetPriceUSD | internal/aggregator/aggregator.go:58-68 | the exact symbol wins; otherwise the normalized symbol is tried; it fails exactly when neither is a key |
| Aggregator.LookupSeesOnlyNormalForm | internal/aggregator/aggregator.go:58-68 | when every key is in normal form, the lookup succeeds exactly when the normalized symbol is a key, and then yields its price |
| Aggregator.GroupKeyInjective | internal/aggregator/aggregator.go:28-29 | two group keys are equal exactly when the instants fall on the same UTC day and the project ids are equal |
| Aggregator.MidnightKeyInjective | internal/aggregator/aggregator.go:28-29 | for midnights, equal keys mean equal dates and equal projects |
| Aggregator.UpdateAggregatedData | internal/aggregator/aggregator.go:70-83 | a new key gets count 1 and the volume; an existing key gets count+1 and volume+v with date and project kept; all other keys are unchanged; keys stay well-formed |
| Aggregator.Contribution | internal/aggregator/aggregator.go:31-43 | a transaction contributes exactly when its value parses and its symbol has a price; its contribution is the parsed wei amount divided by 10^18, times the USD price |
| Aggregator.SkippedTransactionIsInvisible | internal/aggregator/aggregator.go:31-41 | a transaction that is skipped (unparsable value or no price) leaves the result as if it were absent |
| Aggregator.AccumulateWellKeyed | internal/aggregator/aggregator.go:27-44 | every entry of the map sits under the key of its own midnight and project |
| Aggregator.StepGroup | internal/aggregator/aggregator.go:27-44 | one loop iteration keeps every group entry equal to that group's count and volume over the transactions seen |
| Aggregator.AccumulateGroup | internal/aggregator/aggregator.go:24-44 | after the loop, a group has an entry exactly when it has a kept transaction, and the entry holds the group's count and summed volume |
| Aggregator.MemberIsCounted | internal/aggregator/aggregator.go:27-44 | every kept transaction is counted in the group of its day and project |
| Aggregator.EmptyGroupHasNoVolume | internal/aggregator/aggregator.go:27-44 | a group with no kept transaction has zero volume |
| Aggregator.CollectAggregatedData | internal/aggregator/aggregator.go:85-92 | the slice has one element per map entry and lists the map's values in some key order |
| Aggregator.RecordsAreGroups | internal/aggregator/aggregator.go:85-92 | every collected record is at a midnight, counts at least one transaction, and carries its group's count and volume |
| Aggregator.KeptHaveRecords | internal/aggregator/aggregator.go:85-92 | every kept transaction has the record of its group |
| Aggregator.RecordsDistinct | internal/aggregator/aggregator.go:85-92 | no (day, project) group is reported twice |
| Aggregator.GroupCountsCoverKept | internal/aggregator/aggregator.go:24-47 | summed over distinct groups that cover every kept transaction, the counts equal the number of kept transactions |
| Aggregator.TotalCountIsGroupCounts | internal/aggregator/aggregator.go:24-47 | the record counts add up to the per-group counts |
| Aggregator.AggregateOne | internal/aggregator/aggregator.go:27-44 | a skipped transaction leaves the map alone; a kept one adds its key, which then counts one more transaction and the contribution more volume (or starts at 1 and the contribution on its day's midnight), while every other key keeps its record; well-keyed maps stay well-keyed; one iteration is one step of the fold |
| Aggregator.Aggregate | internal/aggregator/aggregator.go:24-47 | the error is always nil; the records summarise the kept transactions, one per group, with counts adding up to the kept count; at most one record per transaction |
| Aggregator.LowerCaseTickerFindsPrice | internal/aggregator/aggregator_test.go:210-245 | "matic" finds the MATIC price through normalization; "USDC" finds none |
| Aggregator.SameDayScenario | internal/aggregator/aggregator_test.go:105-140 | two MATIC trades on one day give one record with count 2 and volume (0.7 + 0.2) × 0.408257 |
| Aggregator.TwoDayScenario | internal/aggregator/aggregator_test.go:23-66 | trades on two days give two records with the expected volumes |
| Aggregator.SkippedScenarios | internal/aggregator/aggregator_test.go:67-104 | an unpriced symbol and an unparsable value both give no record |
| Calendar.Truncate | internal/aggregator/aggregator.go:28 | the result is a midnight, at or before the instant and less than a day before it, on the same day |
| Calendar.IsoNamesTheDay | internal/aggregator/aggregator.go:29 | "2006-01-02" texts are equal exactly when the instants fall on the same UTC day |
| Calendar.FromOrdinalCounts | internal/aggregator/aggregator.go:29 | the civil date of a day number is a valid date whose day number is the input |
| Calendar.FromOrdinalOfOrdinal | internal/aggregator/aggregator.go:29 | converting a valid date to its day number and back gives the date |
| Calendar.DaysBeforeYearFormula | internal/price/price.go:128-131 | the day count before a year matches the Gregorian closed form |
| Calendar.UnixEpochIsNewYear1970 | internal/price/price.go:128-131 | instant 0 is 1970-01-01 |
| CoinGecko.BuildCoinGeckoURL | internal/price/price.go:127-131 | the URL is the history prefix, the coin id and "/history?date=", followed by a day field of at least ten characters; its partner CoinGecko.UrlNamesCoinAndDay shows it names exactly the coin and the UTC day |
| CoinGecko.UrlNamesCoinAndDay | internal/price/price.go:127-131 | two URLs are equal exactly when they name the same coin id and the same UTC day |
| CoinGecko.UrlExample | internal/price/price_test.go:72-92 | coin "SFL" on 2024-04-15 gives the URL the test expects, with date "15-04-2024" |
| CoinGecko.FetchResponse | internal/price/price.go:133-145 | the body passes exactly when the GET succeeds with a status in [200, 300); a network error fails with Transport; any other status fails with that status |
| CoinGecko.ProductionFetcher | internal/price/price.go:133-145 | for every URL the client yields the GET's body exactly when the GET answered with a 2xx status; a network error becomes Transport and any other status becomes BadStatus with that status |
| CoinGecko.ParsePriceFromResponse | internal/price/price.go:147-182 | a positive USD number at market_data.current_price.usd is the price; an absent or undecodable body is InvalidResponse; a missing market_data or current_price object is MissingMarketData; a missing, non-numeric or non-positive usd is MissingUsdPrice; each case holds in both directions |
| CoinGecko.ClassificationSeesOnlyThePricePath | internal/price/price.go:160-182 | bodies that agree along the price path classify alike |
| CoinGecko.ClassifierExamples | internal/price/price_test.go:95-150 | each response of the classifier test gets the expected price or sentinel |
| InternalPrice.MapCoinsList | internal/price/price.go:72-89 | a ticker is a key exactly when an admissible coin has it, and it maps to the id of the first such coin in list order |
| InternalPrice.FirstSeenWins | internal/price/price.go:84-86 | the first admissible coin with a ticker owns it |
| InternalPrice.MaticIsCanonical | internal/price/price.go:79-82 | MATIC is a key exactly when "matic-network" with ticker MATIC is listed, and then maps to it |
| InternalPrice.MaticIgnoresOrder | internal/price/price.go:79-82 | reordering the coin list never changes what MATIC maps to |
| InternalPrice.MapCoinsListSnoc | internal/price/price.go:76-87 | appending a coin adds its ticker only when the coin is admissible and the ticker is new |
| InternalPrice.CoinsListExample | internal/price/price_test.go:16-40 | the test's coin list gives {MATIC: matic-network, USDC: usd-coin} |
| InternalPrice.GetHistoricalPrice | internal/price/price.go:91-112 | a fetch error is passed on with price 0; a parsed price is returned; MissingMarketData becomes price 0 with no error; other classifier errors are passed on with price 0; the price is never negative |
| InternalPrice.ZeroWithoutErrorMeansNoMarketData | internal/price/price.go:101-107 | (0, nil) comes back exactly when the fetch succeeded and the body had no market data |
| InternalPrice.CollectPrices | internal/price/price.go:114-125 | succeeds exactly when every coin prices without error; the map's keys are the requested ids and its values their prices; a failure names the first failing coin and its cause |
| InternalPrice.GetHistoricalPrices | internal/price/price.go:114-125 | the same, for the client's own replies; every price is non-negative |
| InternalPrice.ExampleReplies | internal/price/price_test.go:227-255 | the mock gives SFL 123.45 and gives ETH, whose body is empty, InvalidResponse |
| InternalPrice.OneBadCoinSpoilsTheBatch | internal/price/price_test.go:246-255 | requesting SFL then ETH fails as a whole, naming ETH |
| PkgPrice.GetHistoricalPrice | pkg/price/price.go:35-111 | no error exactly when the fetch and the classification both succeed; the price is then positive; on error the price is 0 and a fetch error is passed on unchanged. The URL, status check and classifier this client uses are the shared `CoinGecko` members, since its copies are identical line for line |
| PkgPrice.SentinelContrast | pkg/price/price.go:45-48 | the two clients differ exactly on MissingMarketData: the public client reports the error, the internal one reports (0, nil) |
| PkgPrice.NoSilentZero | pkg/price/price.go:35-51 | the public client returns price 0 exactly when it returns an error |
| Token.NormalizeTokenSymbol | internal/token/token.go:5-12 | the result is "USDC" exactly for "USDC" and "USDC.E"; every other symbol is unchanged |
| Token.NormalizeMerges | internal/token/token.go:5-12 | two symbols normalize alike exactly when they are equal or both name USDC |
| Token.NormalizeIdempotent | internal/token/token.go:5-12 | normalizing twice is normalizing once |
| Token.LowerCaseIsNotUpperCased | internal/token/token_test.go:24-31 | as written, "matic" and "usdc" come back lower-case, not as the test expects |
| Token.CanonicalSymbol | cmd/main.go:65 | upper-casing then normalizing gives an upper-case, canonical symbol that is "USDC" exactly for the upper-cased USDC spellings, and is the upper-cased symbol unchanged for every symbol other than "USDC.E" |
| Token.CanonicalMeetsTheTests | internal/token/token_test.go:16-31 | the upper-casing form meets every row of the test table |
| Utils.ExtractUniqueTokens | internal/utils/utils.go:13-24 | the tokens are distinct, are exactly the symbols some transaction carries, and are no more than the transactions |
| Utils.InvertMap | internal/utils/utils.go:26-33 | the result's keys are the values of the input, each mapping back to a key that held it; for a one-to-one input each value maps back to its own key |
| Utils.InvertTwice | internal/utils/utils.go:26-33 | inverting a one-to-one map twice gives it back |
| Utils.NormalizeTokenSymbol | internal/utils/utils.go:59-62 | the result is the prefix before the first '.', holds no '.', and equals the input exactly when the input has no '.' |
| Utils.NormalizeCuts | internal/utils/utils.go:59-62 | a head without '.' followed by '.' and any tail normalizes to the head |
| Utils.NormalizeBridgedUsdc | internal/utils/utils.go:59-62 | "USDC.E" gives "USDC" and "usdc.e" gives "usdc"; case is kept |
| Utils.NormalizeDropsAnySuffix | internal/utils/utils.go:59-62 | "WETH.X.Y" gives "WETH" |
| Utils.NormalizeEdgeCases | internal/utils/utils.go:59-62 | "SFL" is kept and ".E" gives the empty string |
| Batch.PriceCsv | internal/database/batch.go:79-97 | the CSV has a header and one two-field record per price, with no token twice |
| Batch.CsvRoundTrip | internal/database/batch.go:79-97 | reading the records back gives exactly the price map, whatever the iteration order |
| Batch.CsvOrderIrrelevant | internal/database/batch.go:88-94 | two iteration orders give the same records up to permutation |
| Batch.ObjectName | internal/database/batch.go:102-103 | the name is "prices-", a day field of at least ten characters, then ".csv"; its partner Batch.ObjectNameNamesTheDay shows it names exactly the UTC day |
| Batch.ObjectNameNamesTheDay | internal/database/batch.go:104-105 | two object names are equal exactly when the dates fall on the same UTC day |
| Batch.StorePricesInMinIO | internal/database/batch.go:78-112 | fails exactly when the upload fails, and then only with UploadFailed; on success the day's object is the export, the one object named for the day is added or replaced, the others are untouched, and it reads back to the prices |
| Batch.RowsFor | internal/database/batch.go:57-63 | one row per price entry, on the date, with that entry's price |
| Batch.RunDailyBatchJob | internal/database/batch.go:31-76 | the count query failing, or existing rows for the date, refuse the run with the store untouched; past that guard, a failed fetch, prepare, append (only with a non-empty price map) or send ends the run with that step's error, in that order, and the store untouched; the run ends in UploadFailed exactly when every earlier step passed and the upload fails, and then the rows stay appended while the objects are untouched; the run succeeds exactly when no step fails; success or an upload failure appends one row per price; success also writes the day's CSV as the export and leaves every other object alone |
| Batch.SecondRunRefused | internal/database/batch.go:39-41 | once a run has appended rows for a date, every later run for it is refused, whatever the price API says |
| Batch.EmptyRunNotGuarded | internal/database/batch.go:39-63 | a run with an empty price map appends no row, so the next run for that date is not refused |
| Pipeline.ResolveCoinIds | cmd/main.go:62-72 | an id is in the list exactly when some token's canonical ticker maps to it; every id comes from the index; there are no more ids than tokens |
| Pipeline.ResolveAppend | cmd/main.go:62-72 | resolution runs token by token: resolving a concatenation concatenates the results |
| Pipeline.ResolveAllHits | cmd/main.go:62-72 | when every token resolves, the ids match the tokens position by position |
| Pipeline.DuplicateUsdcExample | cmd/main.go:62-72 | "usdc" and "USDC.E" both resolve, so the coin is requested twice |
| Pipeline.BatchCoinIds | cmd/main.go:74-77 | the batch is skipped exactly when no token resolves; otherwise it gets the non-empty resolved list |
| Pipeline.RemapPrices | cmd/main.go:96-103 | each ticker in the result is the inverse image of some priced id (or "" for an unknown id) and carries that id's price; the tickers are exactly those of the priced ids |
| Pipeline.RemapRoundTrip | cmd/main.go:96-103 | for a one-to-one index and ids taken from it, the tickers are exactly the index keys whose ids were priced, and each carries its own id's price |
| Pipeline.UnknownIdLandsOnEmptyTicker | cmd/main.go:98-101 | a priced id missing from the inverse lands under the empty ticker |
| Pipeline.IndexIsOneToOne | internal/price/price.go:74-89 | when the coin list names each id once, the ticker index is one-to-one |

## Left out

- The coin-list download (`FetchCoinsList`, `decodeCoinsList`) is left out. It is HTTP plus JSON decoding into a slice; the model starts from the decoded `[]CoinInfo`.
- `CalculateMetrics`, `fetchPrices`, `fetchMetrics` and every other ClickHouse query outside the batch are left out. They are database I/O.
- Floating point is left out: prices, volumes and `/ 1e18` are exact reals. Rounding in `currencyValue*priceUSD` and in the summed volumes is not modelled.
- JSON numbers are reals with no range limit.
- `strings.ToUpper` is modelled on the ASCII letters only. Other Unicode case mappings are not modelled.
- Aggregator.ParseCurrencyValue: `strconv.ParseFloat` is a parameter. The model does not say which strings parse.
- Models.AggregatedData: `TransactionCount` is a `uint64` in the code and a `nat` here. Overflow after 2^64 transactions is not modelled.
- The CSV writer's quoting and the `%.8f` digits are left out. A record keeps its price as a value (`Fixed8`) rather than its eight-decimal text.
- The CSV writer's errors on the in-memory buffer cannot happen and are not modelled.
- Batch.RunDailyBatchJob: the ClickHouse `Date` column stores a day, while the model compares the `date` argument as an instant. When the caller passes midnights the two agree; other instants are not modelled.
- Batch.RunDailyBatchJob: each database step that can fail is a switch in `Faults`. The reasons a real server fails are not modelled.
- Batch.RunDailyBatchJob: the batch `Send` (internal/database/batch.go:65-67) is assumed atomic: all rows land or none do. The clause that a `SendFailed` run leaves the store untouched relies on this. The Go code cannot guarantee it; it depends on the ClickHouse driver and server, and a partial insert is not modelled.
- The export order: the code writes records in map-iteration order, which Go does not fix. The model takes the order as a parameter. `Batch.CsvOrderIrrelevant` shows that the order changes only the order of the records.
- A response with a nil `Body` reaching `GetHistoricalPrice` would panic at the deferred `Close`. The model classifies it as InvalidResponse, as `parsePriceFromResponse` does. A production `http.Response` always has a body.
- Error message texts and logging are not modelled. Errors are datatype constructors. Inside one price request the sentinels are wrapped with `%w` (internal/price/price.go:150-178), and the model keeps them as the `PriceError` constructors.
- InternalPrice.GetHistoricalPrices: the model's `CoinFailed(coinId, cause)` keeps the cause as a structured value. The code wraps it with `%v` (internal/price/price.go:120, and cmd/main.go:180 for the database fetch), so the returned error is flattened to text and `errors.Is` no longer finds `ErrInvalidResponse`, `ErrMissingMarketData` or `ErrMissingUSDPrice` in it. `FetchFailed` in the batch inherits the same flattening. The model does not promise that the sentinel stays detectable.
- InternalPrice.CollectPrices: the per-coin request is a pure function of the coin id (`Pricer`, `Fetcher` and `PriceSource` are functions). So two requests for the same id give the same answer. In the code a repeated id in `coinIDs` makes a second HTTP request that may answer differently, and the last answer wins in `prices[coinID]`. The promise `r.value[id] == price(id).price` relies on this abstraction and is not made for a source that answers differently on a repeated request.
- Context cancellation, connection setup, the HTTP server and the CLI flags are left out.

## Findings

| source | as written | input that shows it | evidently intended | confidence | as-written member | corrected member |
|---|---|---|---|---|---|---|
| internal/token/token.go:5-12 and internal/token/token_test.go:24-31 | `NormalizeTokenSymbol` matches "USDC.E" exactly and returns every other symbol unchanged | "matic" gives "matic", but the test expects "MATIC"; "usdc" gives "usdc", but the test expects "USDC" | normalization upper-cases before resolving the alias, as the only caller (cmd/main.go:65) does by hand | high on the mismatch, not executed | Token.LowerCaseIsNotUpperCased | Token.CanonicalSymbol (proved in Token.CanonicalMeetsTheTests) |
