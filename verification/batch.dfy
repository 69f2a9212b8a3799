/**
 The daily price batch: refuse a date that already has price rows, fetch the prices of
 the requested coins, append one row per coin to the `token_prices` table in a single
 batch, and mirror the prices as a CSV object named after the date. The two stores are
 an abstract state (the table's rows and the bucket's objects); every external call that
 can fail is a switch in `Faults`.
 */
module Batch {
  import opened Wrappers
  import opened Collections
  import Calendar
  import InternalPrice

  /** A row of `token_prices`: coin id, the instant passed as the date, and the price. */
  datatype PriceRow = PriceRow(token: string, date: int, averagePriceUsd: real)

  /** A CSV field: literal text, or a price printed with "%.8f" (the digits are not modelled). */
  datatype CsvField = Field(text: string) | Fixed8(value: real)

  type CsvRecord = seq<CsvField>

  /** The analytical table (append-only, so a multiset of rows) and the object bucket. */
  datatype Store = Store(rows: multiset<PriceRow>, objects: map<string, seq<CsvRecord>>)

  /** Which external calls fail on this run. */
  datatype Faults = Faults(
    countFails: bool,
    prepareFails: bool,
    appendFails: bool,
    sendFails: bool,
    uploadFails: bool)

  /** The job's errors, one per early return. */
  datatype JobError =
    | CountFailed
    | AlreadyIngested(date: int)
    | FetchFailed(cause: InternalPrice.PricesError)
    | PrepareFailed
    | AppendFailed
    | SendFailed
    | UploadFailed

  datatype JobResult = JobResult(store: Store, err: Option<JobError>)

  /** `CoinAPI.GetHistoricalPrices`: a price for every id, or an error. */
  type PriceSource = (seq<string>, int) -> Result<map<string, real>, InternalPrice.PricesError>

  // ---------------------------------------------------------------- the CSV export

  const Header: CsvRecord := [Field("token"), Field("average_price_usd")]

  /**
   `"prices-" + date.Format("2006-01-02") + ".csv"`: the fixed prefix and extension around
   a day field of at least ten characters.
   */
  function ObjectName(date: int): (name: string)
    ensures "prices-" <= name
    ensures |name| >= |"prices-"| + 10 + |".csv"|
    ensures name[|name| - |".csv"|..] == ".csv"
  {
    Calendar.YearTextShape(Calendar.CivilDate(date).year);
    "prices-" + Calendar.FormatIso(Calendar.CivilDate(date)) + ".csv"
  }

  /** The object name depends on the UTC day of the date and on nothing else. */
  lemma ObjectNameNamesTheDay(d1: int, d2: int)
    ensures ObjectName(d1) == ObjectName(d2) <==> Calendar.DayNumber(d1) == Calendar.DayNumber(d2)
  {
    var a := Calendar.CivilDate(d1);
    var b := Calendar.CivilDate(d2);
    Calendar.CivilDateSameDay(d1, d2);
    Calendar.CivilDateValid(d1);
    Calendar.CivilDateValid(d2);
    if ObjectName(d1) == ObjectName(d2) {
      var n1 := Calendar.FormatIso(a) + ".csv";
      var n2 := Calendar.FormatIso(b) + ".csv";
      assert ObjectName(d1) == "prices-" + n1 && ObjectName(d2) == "prices-" + n2;
      assert n1 == ObjectName(d1)[7..] == ObjectName(d2)[7..] == n2;
      Calendar.FormatIsoPrefixFree(a, ".csv", b, ".csv");
    }
  }

  /** The records of the export, in the order `order` walks the price map. */
  function Records(prices: map<string, real>, order: seq<string>): seq<CsvRecord>
    requires forall i :: 0 <= i < |order| ==> order[i] in prices
  {
    seq(|order|, i requires 0 <= i < |order| => [Field(order[i]), Fixed8(prices[order[i]])])
  }

  /**
   The CSV `StorePricesInMinIO` writes, for a walk `order` of the price map: the header,
   then one record per coin, each coin exactly once.
   */
  function PriceCsv(prices: map<string, real>, order: seq<string>): (csv: seq<CsvRecord>)
    requires IsListing(order, prices.Keys)
    ensures |csv| == |prices| + 1 && csv[0] == Header
    ensures forall t :: t in prices ==> [Field(t), Fixed8(prices[t])] in csv[1..]
    ensures forall i :: 1 <= i < |csv| ==> |csv[i]| == 2
    ensures forall i, j :: 1 <= i < j < |csv| ==> csv[i][0] != csv[j][0]
  {
    ListingLength(order, prices.Keys);
    RecordsSet(prices, order);
    var rs := Records(prices, order);
    assert ([Header] + rs)[1..] == rs;
    [Header] + rs
  }

  /** Reading the records back: the map from each record's coin to its price. */
  function ReadBack(records: seq<CsvRecord>): map<string, real>
  {
    if records == [] then map[]
    else
      var last := records[|records| - 1];
      var init := ReadBack(records[..|records| - 1]);
      if |last| == 2 && last[0].Field? && last[1].Fixed8? then init[last[0].text := last[1].value]
      else init
  }

  /** The records of a prefix of the walk read back as the prices of the coins walked so far. */
  lemma {:induction false} ReadBackRecords(prices: map<string, real>, order: seq<string>)
    requires forall i :: 0 <= i < |order| ==> order[i] in prices
    ensures ReadBack(Records(prices, order)) == map t | t in order :: prices[t]
  {
    if order != [] {
      var init := order[..|order| - 1];
      ReadBackRecords(prices, init);
      assert Records(prices, order)[..|order| - 1] == Records(prices, init);
    }
  }

  /** The export round-trips: reading its records back gives exactly the price map. */
  lemma CsvRoundTrip(prices: map<string, real>, order: seq<string>)
    requires IsListing(order, prices.Keys)
    ensures ReadBack(PriceCsv(prices, order)[1..]) == prices
  {
    var rs := Records(prices, order);
    assert PriceCsv(prices, order)[1..] == rs by {
      assert PriceCsv(prices, order) == [Header] + rs;
      assert ([Header] + rs)[1..] == rs;
    }
    ReadBackRecords(prices, order);
    ListedMap(prices, order);
  }

  /** Collecting the map's entries along a walk of its keys gives the map. */
  lemma ListedMap(prices: map<string, real>, order: seq<string>)
    requires IsListing(order, prices.Keys)
    ensures (map t | t in order :: prices[t]) == prices
  {
  }

  /** Two walks of the same map give exports with the same records, possibly reordered. */
  lemma CsvOrderIrrelevant(prices: map<string, real>, order1: seq<string>, order2: seq<string>)
    requires IsListing(order1, prices.Keys) && IsListing(order2, prices.Keys)
    ensures multiset(PriceCsv(prices, order1)) == multiset(PriceCsv(prices, order2))
  {
    var s1 := set i | 0 <= i < |order1| :: Records(prices, order1)[i];
    var s2 := set i | 0 <= i < |order2| :: Records(prices, order2)[i];
    RecordsSet(prices, order1);
    RecordsSet(prices, order2);
    RecordsDistinct(prices, order1);
    RecordsDistinct(prices, order2);
    DistinctAsSet(Records(prices, order1));
    DistinctAsSet(Records(prices, order2));
    assert PriceCsv(prices, order1) == [Header] + Records(prices, order1);
    assert PriceCsv(prices, order2) == [Header] + Records(prices, order2);
  }

  /** The records of a walk are the records of the map's entries. */
  lemma RecordsSet(prices: map<string, real>, order: seq<string>)
    requires IsListing(order, prices.Keys)
    ensures forall t :: t in prices ==> [Field(t), Fixed8(prices[t])] in Records(prices, order)
    ensures (set r | r in Records(prices, order)) == set t | t in prices :: [Field(t), Fixed8(prices[t])]
  {
    var rs := Records(prices, order);
    forall t | t in prices ensures [Field(t), Fixed8(prices[t])] in rs {
      var k :| 0 <= k < |order| && order[k] == t;
      assert rs[k] == [Field(t), Fixed8(prices[t])];
    }
  }

  /** A walk never repeats a record. */
  lemma RecordsDistinct(prices: map<string, real>, order: seq<string>)
    requires IsListing(order, prices.Keys)
    ensures Distinct(Records(prices, order))
  {
    var rs := Records(prices, order);
    forall i, j | 0 <= i < j < |rs| ensures rs[i] != rs[j] {
      assert rs[i][0] == Field(order[i]) && rs[j][0] == Field(order[j]);
    }
  }

  /** A repetition-free sequence has each element once: its multiset is its set. */
  lemma {:induction false} DistinctAsSet<T>(xs: seq<T>)
    requires Distinct(xs)
    ensures multiset(xs) == multiset(set x | x in xs)
  {
    if xs != [] {
      var init := xs[..|xs| - 1];
      var last := xs[|xs| - 1];
      assert Distinct(init);
      DistinctAsSet(init);
      assert xs == init + [last];
      assert last !in init;
      assert (set x | x in xs) == (set x | x in init) + {last};
    }
  }

  /**
   `StorePricesInMinIO`: upload the export under the date's name, replacing any object of
   that name and leaving every other object alone; a failed upload changes nothing.
   */
  function StorePricesInMinIO(objects: map<string, seq<CsvRecord>>, prices: map<string, real>, date: int,
                              order: seq<string>, uploadFails: bool): (r: Result<map<string, seq<CsvRecord>>, JobError>)
    requires IsListing(order, prices.Keys)
    ensures uploadFails <==> r == Err(UploadFailed)
    ensures r.Ok? <==> !uploadFails
    ensures r.Ok? ==> r.value.Keys == objects.Keys + {ObjectName(date)}
    ensures r.Ok? ==> r.value[ObjectName(date)] == PriceCsv(prices, order)
    ensures r.Ok? ==> forall name :: name in objects && name != ObjectName(date) ==> r.value[name] == objects[name]
    ensures r.Ok? ==> |r.value[ObjectName(date)]| >= 1 && ReadBack(r.value[ObjectName(date)][1..]) == prices
  {
    if uploadFails then Err(UploadFailed)
    else
      var csv := PriceCsv(prices, order);
      CsvRoundTrip(prices, order);
      Ok(UploadFile(objects, ObjectName(date), csv))
  }

  /** `Storage.UploadFile` on success: the object is created or replaced; the others stay. */
  function UploadFile(objects: map<string, seq<CsvRecord>>, name: string, contents: seq<CsvRecord>)
    : map<string, seq<CsvRecord>>
  {
    objects[name := contents]
  }

  // ---------------------------------------------------------------- the job

  /** `SELECT COUNT(*) FROM token_prices WHERE date = ?` is positive. */
  ghost predicate HasRowsFor(rows: multiset<PriceRow>, date: int)
  {
    exists r :: r in rows && r.date == date
  }

  /** The run gets past the count query and the duplicate guard. */
  ghost predicate PassesGuard(store: Store, faults: Faults, date: int)
  {
    !faults.countFails && !HasRowsFor(store.rows, date)
  }

  /** The rows the batch appends: one per entry of the price map, all on `date`. */
  function RowsFor(prices: map<string, real>, date: int): (rows: multiset<PriceRow>)
    ensures forall r :: r in rows <==> r.token in prices && r.date == date && r.averagePriceUsd == prices[r.token]
    ensures forall r :: rows[r] <= 1
  {
    multiset(set t | t in prices :: PriceRow(t, date, prices[t]))
  }

  /**
   `RunDailyBatchJob` as a transition of the two stores. `order` is the walk of the
   fetched price map the CSV writer takes.
   */
  function RunDailyBatchJob(store: Store, faults: Faults, api: PriceSource, coinIds: seq<string>,
                            date: int, order: seq<string>): (r: JobResult)
    requires api(coinIds, date).Ok? ==> IsListing(order, api(coinIds, date).value.Keys)
    ensures faults.countFails ==> r == JobResult(store, Some(CountFailed))
    ensures !faults.countFails && HasRowsFor(store.rows, date) ==> r == JobResult(store, Some(AlreadyIngested(date)))
    ensures PassesGuard(store, faults, date) && api(coinIds, date).Err? ==>
              r == JobResult(store, Some(FetchFailed(api(coinIds, date).error)))
    ensures PassesGuard(store, faults, date) && api(coinIds, date).Ok? && faults.prepareFails ==>
              r == JobResult(store, Some(PrepareFailed))
    ensures PassesGuard(store, faults, date) && api(coinIds, date).Ok? && !faults.prepareFails
            && faults.appendFails && |api(coinIds, date).value| > 0 ==>
              r == JobResult(store, Some(AppendFailed))
    ensures PassesGuard(store, faults, date) && api(coinIds, date).Ok? && !faults.prepareFails
            && !(faults.appendFails && |api(coinIds, date).value| > 0) && faults.sendFails ==>
              r == JobResult(store, Some(SendFailed))
    ensures r.err == Some(UploadFailed) <==>
              && PassesGuard(store, faults, date) && api(coinIds, date).Ok?
              && !faults.prepareFails && !(faults.appendFails && |api(coinIds, date).value| > 0)
              && !faults.sendFails && faults.uploadFails
    ensures PassesGuard(store, faults, date) && api(coinIds, date).Ok?
            && !faults.prepareFails && !(faults.appendFails && |api(coinIds, date).value| > 0)
            && !faults.sendFails && faults.uploadFails ==>
              r == JobResult(Store(store.rows + RowsFor(api(coinIds, date).value, date), store.objects),
                             Some(UploadFailed))
    ensures r.err.Some? && r.err.value != UploadFailed ==> r.store == store
    ensures r.err == None || r.err == Some(UploadFailed) ==>
              && api(coinIds, date).Ok?
              && r.store.rows == store.rows + RowsFor(api(coinIds, date).value, date)
    ensures r.err == Some(UploadFailed) ==> r.store.objects == store.objects
    ensures r.err.None? ==>
              && r.store.objects.Keys == store.objects.Keys + {ObjectName(date)}
              && |r.store.objects[ObjectName(date)]| >= 1
              && ReadBack(r.store.objects[ObjectName(date)][1..]) == api(coinIds, date).value
    ensures r.err.None? ==>
              && r.store.objects[ObjectName(date)] == PriceCsv(api(coinIds, date).value, order)
              && forall n :: n in store.objects && n != ObjectName(date) ==> r.store.objects[n] == store.objects[n]
    ensures r.err.None? <==>
              && !faults.countFails && !HasRowsFor(store.rows, date)
              && api(coinIds, date).Ok?
              && !faults.prepareFails && !(faults.appendFails && |api(coinIds, date).value| > 0)
              && !faults.sendFails && !faults.uploadFails
  {
    if faults.countFails then JobResult(store, Some(CountFailed))
    else if exists row :: row in store.rows && row.date == date then JobResult(store, Some(AlreadyIngested(date)))
    else
      match api(coinIds, date)
      case Err(e) => JobResult(store, Some(FetchFailed(e)))
      case Ok(prices) =>
        if faults.prepareFails then JobResult(store, Some(PrepareFailed))
        else if faults.appendFails && |prices| > 0 then JobResult(store, Some(AppendFailed))
        else if faults.sendFails then JobResult(store, Some(SendFailed))
        else
          var rows := store.rows + RowsFor(prices, date);
          match StorePricesInMinIO(store.objects, prices, date, order, faults.uploadFails)
          case Err(e) => JobResult(Store(rows, store.objects), Some(e))
          case Ok(objects) => JobResult(Store(rows, objects), None)
  }

  /**
   The duplicate guard: once a run for `date` has appended at least one row (it succeeded,
   or only the upload failed), every later run for that date is refused before fetching,
   whatever the price source then answers.
   */
  lemma SecondRunRefused(store: Store, faults: Faults, api: PriceSource, coinIds: seq<string>, order: seq<string>,
                         date: int, faults2: Faults, api2: PriceSource, coinIds2: seq<string>, order2: seq<string>)
    requires api(coinIds, date).Ok? ==> IsListing(order, api(coinIds, date).value.Keys)
    requires api2(coinIds2, date).Ok? ==> IsListing(order2, api2(coinIds2, date).value.Keys)
    ensures var first := RunDailyBatchJob(store, faults, api, coinIds, date, order);
            first.err in {None, Some(UploadFailed)} && |api(coinIds, date).value| > 0 && !faults2.countFails ==>
              RunDailyBatchJob(first.store, faults2, api2, coinIds2, date, order2)
              == JobResult(first.store, Some(AlreadyIngested(date)))
  {
    var r := RunDailyBatchJob(store, faults, api, coinIds, date, order);
    if r.err in {None, Some(UploadFailed)} && |api(coinIds, date).value| > 0 {
      var prices := api(coinIds, date).value;
      var t :| t in prices;
      var row := PriceRow(t, date, prices[t]);
      assert row in RowsFor(prices, date);
      assert row in r.store.rows;
    }
  }

  /**
   The guard only sees rows: a run whose price map came back empty appends none, so it
   does not stop the next run for that date even when it uploaded a CSV.
   */
  lemma EmptyRunNotGuarded(store: Store, faults: Faults, api: PriceSource, coinIds: seq<string>,
                           date: int, order: seq<string>)
    requires api(coinIds, date).Ok? ==> IsListing(order, api(coinIds, date).value.Keys)
    ensures var first := RunDailyBatchJob(store, faults, api, coinIds, date, order);
            first.err in {None, Some(UploadFailed)} && api(coinIds, date).value == map[] ==>
              first.store.rows == store.rows && !HasRowsFor(first.store.rows, date)
  {
    assert RowsFor(map[], date) == multiset{};
  }
}
