/**
 The aggregation engine: one pass over the transactions that groups them by (UTC day,
 project), skips those whose value does not parse or whose currency has no price, and
 accumulates a count and a USD volume per group.
 */
module Aggregator {
  import opened Wrappers
  import opened Models
  import opened Collections
  import Text
  import Calendar

  /** Ticker (or coin id) to USD price. */
  type PriceTable = map<string, real>

  /** `strconv.ParseFloat(s, 64)`, left abstract: the number a decimal string denotes, if it parses. */
  type DecimalParser = string -> Option<real>

  /** Base units per display unit of an 18-decimal currency. */
  const WeiPerUnit: real := 1000000000000000000.0

  /** Why a transaction contributes to no group. */
  datatype Skip = UnparsableValue(value: string) | PriceNotFound(symbol: string)

  // ---------------------------------------------------------------- per-transaction steps

  /**
   `normalizeSymbol`: the upper-cased part of the ticker before its first '.', so that
   "usdc.e" and "USDC" meet.
   */
  function NormalizeSymbol(symbol: string): (r: string)
    ensures |r| <= |symbol|
    ensures forall i :: 0 <= i < |r| ==> symbol[i] != '.' && r[i] == Text.UpperChar(symbol[i])
    ensures |r| == |symbol| || symbol[|r|] == '.'
    ensures '.' !in r
  {
    Text.Upper(Text.BeforeFirst(symbol, '.'))
  }

  lemma NormalizeSymbolIdempotent(symbol: string)
    ensures NormalizeSymbol(NormalizeSymbol(symbol)) == NormalizeSymbol(symbol)
  {
    var r := NormalizeSymbol(symbol);
    Text.BeforeFirstNoSeparator(r, '.');
    Text.UpperIdempotent(Text.BeforeFirst(symbol, '.'));
  }

  /** `parseCurrencyValue`: the parsed base-unit amount scaled down to display units. */
  function ParseCurrencyValue(value: string, parse: DecimalParser): (r: Result<real, Skip>)
    ensures r.Ok? <==> parse(value).Some?
    ensures r.Ok? ==> r.value * WeiPerUnit == parse(value).value
    ensures r.Err? ==> r.error == UnparsableValue(value)
  {
    match parse(value)
    case None => Err(UnparsableValue(value))
    case Some(x) => Ok(x / WeiPerUnit)
  }

  /** `getPriceUSD`: the exact ticker wins; otherwise its normal form is looked up. */
  function GetPriceUSD(symbol: string, prices: PriceTable): (r: Result<real, Skip>)
    ensures r.Err? <==> symbol !in prices && NormalizeSymbol(symbol) !in prices
    ensures r.Err? ==> r.error == PriceNotFound(symbol)
    ensures symbol in prices ==> r == Ok(prices[symbol])
    ensures symbol !in prices && r.Ok? ==> r.value == prices[NormalizeSymbol(symbol)]
  {
    if symbol in prices then Ok(prices[symbol])
    else if NormalizeSymbol(symbol) in prices then Ok(prices[NormalizeSymbol(symbol)])
    else Err(PriceNotFound(symbol))
  }

  /**
   When every ticker in the table is already in normal form, a lookup sees only the normal
   form of the ticker it is given: "matic", "Matic.e" and "MATIC" all find the same price.
   */
  lemma LookupSeesOnlyNormalForm(symbol: string, prices: PriceTable)
    requires forall k :: k in prices ==> NormalizeSymbol(k) == k
    ensures GetPriceUSD(symbol, prices).Ok? <==> NormalizeSymbol(symbol) in prices
    ensures GetPriceUSD(symbol, prices).Ok? ==>
              GetPriceUSD(symbol, prices).value == prices[NormalizeSymbol(symbol)]
  {
  }

  // ---------------------------------------------------------------- groups

  /** `date.Format("2006-01-02") + projectID`: the string the source groups by. */
  function GroupKey(date: int, projectId: string): string
  {
    Calendar.FormatIso(Calendar.CivilDate(date)) + projectId
  }

  function TxnKey(t: Transaction): string
  {
    GroupKey(Calendar.Truncate(t.timestamp), t.projectId)
  }

  /**
   The string key separates groups: two (instant, project) pairs share a key exactly when
   the instants fall on the same UTC day and the projects are equal. Holds for every year,
   including those whose year field is not four characters wide.
   */
  lemma GroupKeyInjective(d1: int, p1: string, d2: int, p2: string)
    ensures GroupKey(d1, p1) == GroupKey(d2, p2) <==>
              Calendar.DayNumber(d1) == Calendar.DayNumber(d2) && p1 == p2
  {
    Calendar.CivilDateSameDay(d1, d2);
    Calendar.CivilDateValid(d1);
    Calendar.CivilDateValid(d2);
    if GroupKey(d1, p1) == GroupKey(d2, p2) {
      Calendar.FormatIsoPrefixFree(Calendar.CivilDate(d1), p1, Calendar.CivilDate(d2), p2);
    }
  }

  /** For midnights the key names exactly one (day, project) pair. */
  lemma MidnightKeyInjective(d1: int, p1: string, d2: int, p2: string)
    requires d1 % Calendar.SecondsPerDay == 0 && d2 % Calendar.SecondsPerDay == 0
    ensures GroupKey(d1, p1) == GroupKey(d2, p2) <==> d1 == d2 && p1 == p2
  {
    GroupKeyInjective(d1, p1, d2, p2);
  }

  /** Every record sits under its own key, on a midnight, with at least one transaction. */
  ghost predicate WellKeyed(m: map<string, AggregatedData>)
  {
    forall k :: k in m ==>
      && k == GroupKey(m[k].date, m[k].projectId)
      && m[k].date % Calendar.SecondsPerDay == 0
      && m[k].transactionCount >= 1
  }

  /**
   `updateAggregatedData`: a new key starts at count 1 and volume v, an existing key gains
   one transaction and v, and every other key keeps its record.
   */
  function UpdateAggregatedData(
    m: map<string, AggregatedData>, key: string, date: int, projectId: string, volume: real
  ): (m': map<string, AggregatedData>)
    ensures m'.Keys == m.Keys + {key}
    ensures forall k :: k in m && k != key ==> m'[k] == m[k]
    ensures key !in m ==> m'[key] == AggregatedData(date, projectId, 1, volume)
    ensures key in m ==>
              && m'[key].transactionCount == m[key].transactionCount + 1
              && m'[key].totalVolumeUsd == m[key].totalVolumeUsd + volume
              && m'[key].date == m[key].date && m'[key].projectId == m[key].projectId
    ensures WellKeyed(m) && key == GroupKey(date, projectId) && date % Calendar.SecondsPerDay == 0
            ==> WellKeyed(m')
  {
    if key in m then
      var agg := m[key];
      m[key := agg.(transactionCount := agg.transactionCount + 1,
                    totalVolumeUsd := agg.totalVolumeUsd + volume)]
    else
      m[key := AggregatedData(date, projectId, 1, volume)]
  }

  // ---------------------------------------------------------------- the pass as a fold

  /** The USD volume a transaction adds to its group, or None when it is skipped. */
  function Contribution(t: Transaction, prices: PriceTable, parse: DecimalParser): (c: Option<real>)
    ensures c.Some? <==>
              parse(t.nums.currencyValueDecimal).Some? && GetPriceUSD(t.props.currencySymbol, prices).Ok?
    ensures c.Some? ==>
              c.value * WeiPerUnit
              == parse(t.nums.currencyValueDecimal).value * GetPriceUSD(t.props.currencySymbol, prices).value
  {
    match ParseCurrencyValue(t.nums.currencyValueDecimal, parse)
    case Err(_) => None
    case Ok(value) =>
      match GetPriceUSD(t.props.currencySymbol, prices)
      case Err(_) => None
      case Ok(price) => Some(value * price)
  }

  /** One iteration of the loop in `Aggregate`. */
  function Step(m: map<string, AggregatedData>, t: Transaction, prices: PriceTable, parse: DecimalParser)
    : map<string, AggregatedData>
  {
    match Contribution(t, prices, parse)
    case None => m
    case Some(volume) =>
      UpdateAggregatedData(m, TxnKey(t), Calendar.Truncate(t.timestamp), t.projectId, volume)
  }

  /** The map `dataMap` holds after the loop has consumed `txns`. */
  function Accumulate(txns: seq<Transaction>, prices: PriceTable, parse: DecimalParser)
    : map<string, AggregatedData>
  {
    if txns == [] then map[]
    else Step(Accumulate(txns[..|txns| - 1], prices, parse), txns[|txns| - 1], prices, parse)
  }

  // ---------------------------------------------------------------- reference definitions

  /** `t` is kept and belongs to the group of project `projectId` on the day starting at `day`. */
  predicate InGroup(t: Transaction, day: int, projectId: string, prices: PriceTable, parse: DecimalParser)
  {
    && Contribution(t, prices, parse).Some?
    && Calendar.Truncate(t.timestamp) == day
    && t.projectId == projectId
  }

  /** Number of kept transactions in group (day, projectId). */
  function CountFor(txns: seq<Transaction>, day: int, projectId: string, prices: PriceTable, parse: DecimalParser)
    : nat
  {
    if txns == [] then 0
    else
      CountFor(txns[..|txns| - 1], day, projectId, prices, parse)
      + (if InGroup(txns[|txns| - 1], day, projectId, prices, parse) then 1 else 0)
  }

  /** Sum of `value / 1e18 * price` over the kept transactions of group (day, projectId). */
  function VolumeFor(txns: seq<Transaction>, day: int, projectId: string, prices: PriceTable, parse: DecimalParser)
    : real
  {
    if txns == [] then 0.0
    else
      var t := txns[|txns| - 1];
      VolumeFor(txns[..|txns| - 1], day, projectId, prices, parse)
      + (if InGroup(t, day, projectId, prices, parse) then Contribution(t, prices, parse).value else 0.0)
  }

  /** Number of transactions that are not skipped. */
  function KeptCount(txns: seq<Transaction>, prices: PriceTable, parse: DecimalParser): (n: nat)
    ensures n <= |txns|
  {
    if txns == [] then 0
    else
      KeptCount(txns[..|txns| - 1], prices, parse)
      + (if Contribution(txns[|txns| - 1], prices, parse).Some? then 1 else 0)
  }

  lemma {:induction false} EmptyGroupHasNoVolume(
    txns: seq<Transaction>, day: int, projectId: string, prices: PriceTable, parse: DecimalParser)
    requires CountFor(txns, day, projectId, prices, parse) == 0
    ensures VolumeFor(txns, day, projectId, prices, parse) == 0.0
  {
    if txns != [] {
      EmptyGroupHasNoVolume(txns[..|txns| - 1], day, projectId, prices, parse);
    }
  }

  /** A kept transaction is counted in its own group. */
  lemma {:induction false} MemberIsCounted(
    txns: seq<Transaction>, i: int, prices: PriceTable, parse: DecimalParser)
    requires 0 <= i < |txns| && Contribution(txns[i], prices, parse).Some?
    ensures CountFor(txns, Calendar.Truncate(txns[i].timestamp), txns[i].projectId, prices, parse) >= 1
  {
    if i < |txns| - 1 {
      assert txns[..|txns| - 1][i] == txns[i];
      MemberIsCounted(txns[..|txns| - 1], i, prices, parse);
    }
  }

  /** Unfolding the fold at its last element. */
  lemma AccumulateSnoc(s: seq<Transaction>, t: Transaction, prices: PriceTable, parse: DecimalParser)
    ensures Accumulate(s + [t], prices, parse) == Step(Accumulate(s, prices, parse), t, prices, parse)
  {
    assert (s + [t])[..|s|] == s;
  }

  lemma {:induction false} AccumulateWellKeyed(txns: seq<Transaction>, prices: PriceTable, parse: DecimalParser)
    ensures WellKeyed(Accumulate(txns, prices, parse))
  {
    if txns != [] {
      AccumulateWellKeyed(txns[..|txns| - 1], prices, parse);
    }
  }

  /** The record of one group after one more transaction, from the record before it. */
  lemma StepGroup(
    s: seq<Transaction>, t: Transaction, day: int, projectId: string, prices: PriceTable, parse: DecimalParser)
    requires day % Calendar.SecondsPerDay == 0
    requires var m0 := Accumulate(s, prices, parse);
             var k := GroupKey(day, projectId);
             && (k in m0 <==> CountFor(s, day, projectId, prices, parse) > 0)
             && (k in m0 ==> m0[k] == AggregatedData(day, projectId,
                                                      CountFor(s, day, projectId, prices, parse),
                                                      VolumeFor(s, day, projectId, prices, parse)))
    ensures var m := Accumulate(s + [t], prices, parse);
            var k := GroupKey(day, projectId);
            && (k in m <==> CountFor(s + [t], day, projectId, prices, parse) > 0)
            && (k in m ==> m[k] == AggregatedData(day, projectId,
                                                   CountFor(s + [t], day, projectId, prices, parse),
                                                   VolumeFor(s + [t], day, projectId, prices, parse)))
  {
    var txns := s + [t];
    assert txns[..|txns| - 1] == s;
    assert txns[|txns| - 1] == t;
    var m0 := Accumulate(s, prices, parse);
    var k := GroupKey(day, projectId);
    AccumulateSnoc(s, t, prices, parse);
    MidnightKeyInjective(Calendar.Truncate(t.timestamp), t.projectId, day, projectId);
    if CountFor(s, day, projectId, prices, parse) == 0 {
      EmptyGroupHasNoVolume(s, day, projectId, prices, parse);
    }
  }

  /**
   What the fold computes, stated per group: the key of a midnight-aligned group is
   present exactly when some kept transaction belongs to it, and its record then carries
   that group's day, project, count and volume.
   */
  lemma {:induction false} AccumulateGroup(
    txns: seq<Transaction>, day: int, projectId: string, prices: PriceTable, parse: DecimalParser)
    requires day % Calendar.SecondsPerDay == 0
    ensures var m := Accumulate(txns, prices, parse);
            var k := GroupKey(day, projectId);
            && (k in m <==> CountFor(txns, day, projectId, prices, parse) > 0)
            && (k in m ==> m[k] == AggregatedData(day, projectId,
                                                   CountFor(txns, day, projectId, prices, parse),
                                                   VolumeFor(txns, day, projectId, prices, parse)))
  {
    if txns != [] {
      var s := txns[..|txns| - 1];
      assert txns == s + [txns[|txns| - 1]];
      AccumulateGroup(s, day, projectId, prices, parse);
      StepGroup(s, txns[|txns| - 1], day, projectId, prices, parse);
    }
  }

  /**
   A skipped transaction leaves the whole result as it was, wherever it stands in the
   input: it creates no record and changes no other record.
   */
  lemma {:induction false} SkippedTransactionIsInvisible(
    a: seq<Transaction>, t: Transaction, b: seq<Transaction>, prices: PriceTable, parse: DecimalParser)
    requires Contribution(t, prices, parse).None?
    ensures Accumulate(a + [t] + b, prices, parse) == Accumulate(a + b, prices, parse)
  {
    if b == [] {
      assert a + [t] + b == a + [t];
      assert a + b == a;
      AccumulateSnoc(a, t, prices, parse);
    } else {
      var b' := b[..|b| - 1];
      var u := b[|b| - 1];
      SkippedTransactionIsInvisible(a, t, b', prices, parse);
      assert a + [t] + b == (a + [t] + b') + [u];
      assert a + b == (a + b') + [u];
      AccumulateSnoc(a + [t] + b', u, prices, parse);
      AccumulateSnoc(a + b', u, prices, parse);
    }
  }

  // ---------------------------------------------------------------- collecting the map

  /** `out` holds the records of `m` in the order `keys` lists the keys. */
  ghost predicate ListsValues(m: map<string, AggregatedData>, keys: seq<string>, out: seq<AggregatedData>)
  {
    && IsListing(keys, m.Keys)
    && |out| == |keys|
    && (forall i :: 0 <= i < |out| ==> out[i] == m[keys[i]])
  }

  /** `collectAggregatedData`: every record of the map once, in map-iteration order. */
  method CollectAggregatedData(dataMap: map<string, AggregatedData>) returns (out: seq<AggregatedData>)
    ensures |out| == |dataMap|
    ensures exists keys :: ListsValues(dataMap, keys, out)
  {
    var keys := Enumerate(dataMap.Keys);
    out := [];
    for i := 0 to |keys|
      invariant |out| == i
      invariant forall j :: 0 <= j < i ==> out[j] == dataMap[keys[j]]
    {
      out := out + [dataMap[keys[i]]];
    }
    assert ListsValues(dataMap, keys, out);
  }

  // ---------------------------------------------------------------- sums over the output

  function TotalCount(out: seq<AggregatedData>): nat
  {
    if out == [] then 0 else TotalCount(out[..|out| - 1]) + out[|out| - 1].transactionCount
  }

  /** Sum, over the groups named by `out`, of the reference count of each group. */
  function GroupCounts(txns: seq<Transaction>, out: seq<AggregatedData>, prices: PriceTable, parse: DecimalParser)
    : nat
  {
    if out == [] then 0
    else
      var r := out[|out| - 1];
      GroupCounts(txns, out[..|out| - 1], prices, parse) + CountFor(txns, r.date, r.projectId, prices, parse)
  }

  /** Number of records of `out` whose group `t` belongs to. */
  function Hits(t: Transaction, out: seq<AggregatedData>, prices: PriceTable, parse: DecimalParser): nat
  {
    if out == [] then 0
    else
      var r := out[|out| - 1];
      Hits(t, out[..|out| - 1], prices, parse) + (if InGroup(t, r.date, r.projectId, prices, parse) then 1 else 0)
  }

  ghost predicate DistinctGroups(out: seq<AggregatedData>)
  {
    forall i, j :: 0 <= i < j < |out| ==>
      out[i].date != out[j].date || out[i].projectId != out[j].projectId
  }

  ghost predicate HasGroupOf(out: seq<AggregatedData>, t: Transaction)
  {
    exists r :: r in out && r.date == Calendar.Truncate(t.timestamp) && r.projectId == t.projectId
  }

  lemma {:induction false} TotalCountIsGroupCounts(
    txns: seq<Transaction>, out: seq<AggregatedData>, prices: PriceTable, parse: DecimalParser)
    requires forall r :: r in out ==>
               r.transactionCount == CountFor(txns, r.date, r.projectId, prices, parse)
    ensures TotalCount(out) == GroupCounts(txns, out, prices, parse)
  {
    if out != [] {
      TotalCountIsGroupCounts(txns, out[..|out| - 1], prices, parse);
    }
  }

  lemma {:induction false} GroupCountsSnoc(
    s: seq<Transaction>, t: Transaction, out: seq<AggregatedData>, prices: PriceTable, parse: DecimalParser)
    ensures GroupCounts(s + [t], out, prices, parse) == GroupCounts(s, out, prices, parse) + Hits(t, out, prices, parse)
  {
    assert (s + [t])[..|s|] == s;
    if out != [] {
      GroupCountsSnoc(s, t, out[..|out| - 1], prices, parse);
    }
  }

  /** Among records with distinct groups, a transaction hits one record if kept and its group is listed, none otherwise. */
  lemma {:induction false} HitsAtMostOnce(t: Transaction, out: seq<AggregatedData>, prices: PriceTable, parse: DecimalParser)
    requires DistinctGroups(out)
    ensures Hits(t, out, prices, parse) ==
              (if Contribution(t, prices, parse).Some? && HasGroupOf(out, t) then 1 else 0)
  {
    if out != [] {
      var init := out[..|out| - 1];
      var r := out[|out| - 1];
      HitsAtMostOnce(t, init, prices, parse);
      if HasGroupOf(out, t) {
        var r' :| r' in out && r'.date == Calendar.Truncate(t.timestamp) && r'.projectId == t.projectId;
        var i :| 0 <= i < |out| && out[i] == r';
        if i < |init| {
          assert init[i] in init;
          assert init[i] == out[i];
        }
      }
      if HasGroupOf(init, t) {
        var r' :| r' in init && r'.date == Calendar.Truncate(t.timestamp) && r'.projectId == t.projectId;
        var i :| 0 <= i < |init| && init[i] == r';
        assert out[i] == init[i];
        assert out[i] in out;
      }
    }
  }

  /**
   Summing the group counts over a list of distinct groups that covers every kept
   transaction gives the number of kept transactions.
   */
  lemma {:induction false} GroupCountsCoverKept(
    txns: seq<Transaction>, out: seq<AggregatedData>, prices: PriceTable, parse: DecimalParser)
    requires DistinctGroups(out)
    requires forall i :: 0 <= i < |txns| && Contribution(txns[i], prices, parse).Some? ==> HasGroupOf(out, txns[i])
    ensures GroupCounts(txns, out, prices, parse) == KeptCount(txns, prices, parse)
  {
    if txns == [] {
      GroupCountsOfNothing(out, prices, parse);
    } else {
      var s := txns[..|txns| - 1];
      var t := txns[|txns| - 1];
      assert txns == s + [t];
      forall i | 0 <= i < |s| && Contribution(s[i], prices, parse).Some? ensures HasGroupOf(out, s[i]) {
        assert s[i] == txns[i];
      }
      GroupCountsCoverKept(s, out, prices, parse);
      GroupCountsSnoc(s, t, out, prices, parse);
      HitsAtMostOnce(t, out, prices, parse);
    }
  }

  lemma {:induction false} GroupCountsOfNothing(out: seq<AggregatedData>, prices: PriceTable, parse: DecimalParser)
    ensures GroupCounts([], out, prices, parse) == 0
  {
    if out != [] {
      GroupCountsOfNothing(out[..|out| - 1], prices, parse);
    }
  }

  /** Records that each count at least one transaction are no more numerous than their total count. */
  lemma {:induction false} CountsBoundLength(out: seq<AggregatedData>)
    requires forall r :: r in out ==> r.transactionCount >= 1
    ensures |out| <= TotalCount(out)
  {
    if out != [] {
      assert forall r :: r in out[..|out| - 1] ==> r in out;
      assert out[|out| - 1] in out;
      CountsBoundLength(out[..|out| - 1]);
    }
  }

  /** When every record counts `c` transactions, the total is `c` per record. */
  lemma {:induction false} UniformCounts(out: seq<AggregatedData>, c: nat)
    requires forall r :: r in out ==> r.transactionCount == c
    ensures TotalCount(out) == c * |out|
  {
    if out != [] {
      assert forall r :: r in out[..|out| - 1] ==> r in out;
      assert out[|out| - 1] in out;
      UniformCounts(out[..|out| - 1], c);
    }
  }

  // ---------------------------------------------------------------- the output

  /** Each collected record is the record of its own group: midnight, count and volume. */
  lemma RecordsAreGroups(
    txns: seq<Transaction>, prices: PriceTable, parse: DecimalParser, keys: seq<string>, out: seq<AggregatedData>)
    requires ListsValues(Accumulate(txns, prices, parse), keys, out)
    ensures forall r :: r in out ==>
              && r.date % Calendar.SecondsPerDay == 0
              && r.transactionCount == CountFor(txns, r.date, r.projectId, prices, parse) >= 1
              && r.totalVolumeUsd == VolumeFor(txns, r.date, r.projectId, prices, parse)
  {
    var m := Accumulate(txns, prices, parse);
    AccumulateWellKeyed(txns, prices, parse);
    forall r | r in out
      ensures && r.date % Calendar.SecondsPerDay == 0
              && r.transactionCount == CountFor(txns, r.date, r.projectId, prices, parse) >= 1
              && r.totalVolumeUsd == VolumeFor(txns, r.date, r.projectId, prices, parse)
    {
      var i :| 0 <= i < |out| && out[i] == r;
      assert keys[i] in m;
      AccumulateGroup(txns, r.date, r.projectId, prices, parse);
    }
  }

  /** Every kept transaction finds the record of its group among the collected ones. */
  lemma KeptHaveRecords(
    txns: seq<Transaction>, prices: PriceTable, parse: DecimalParser, keys: seq<string>, out: seq<AggregatedData>)
    requires ListsValues(Accumulate(txns, prices, parse), keys, out)
    ensures forall i :: 0 <= i < |txns| && Contribution(txns[i], prices, parse).Some? ==> HasGroupOf(out, txns[i])
  {
    var m := Accumulate(txns, prices, parse);
    forall i | 0 <= i < |txns| && Contribution(txns[i], prices, parse).Some?
      ensures HasGroupOf(out, txns[i])
    {
      var day := Calendar.Truncate(txns[i].timestamp);
      MemberIsCounted(txns, i, prices, parse);
      AccumulateGroup(txns, day, txns[i].projectId, prices, parse);
      var k := GroupKey(day, txns[i].projectId);
      var j :| 0 <= j < |keys| && keys[j] == k;
      assert out[j] == m[k];
      assert out[j] in out;
    }
  }

  /** No two collected records belong to the same group. */
  lemma RecordsDistinct(
    txns: seq<Transaction>, prices: PriceTable, parse: DecimalParser, keys: seq<string>, out: seq<AggregatedData>)
    requires ListsValues(Accumulate(txns, prices, parse), keys, out)
    ensures DistinctGroups(out)
  {
    AccumulateWellKeyed(txns, prices, parse);
    forall i, j | 0 <= i < j < |out|
      ensures out[i].date != out[j].date || out[i].projectId != out[j].projectId
    {
      assert keys[i] != keys[j];
      assert keys[i] == GroupKey(out[i].date, out[i].projectId);
      assert keys[j] == GroupKey(out[j].date, out[j].projectId);
    }
  }

  /**
   The body of the loop in `Aggregate`: truncate the timestamp, build the key, and fold
   the transaction in unless its value does not parse or its currency has no price.
   */
  method AggregateOne(dataMap: map<string, AggregatedData>, txn: Transaction, prices: PriceTable, parse: DecimalParser)
    returns (dataMap': map<string, AggregatedData>)
    ensures Contribution(txn, prices, parse).None? ==> dataMap' == dataMap
    ensures Contribution(txn, prices, parse).Some? ==>
              var key, volume := TxnKey(txn), Contribution(txn, prices, parse).value;
              && dataMap'.Keys == dataMap.Keys + {key}
              && (forall k :: k in dataMap && k != key ==> dataMap'[k] == dataMap[k])
              && (key !in dataMap ==>
                    dataMap'[key] == AggregatedData(Calendar.Truncate(txn.timestamp), txn.projectId, 1, volume))
              && (key in dataMap ==>
                    && dataMap'[key].transactionCount == dataMap[key].transactionCount + 1
                    && dataMap'[key].totalVolumeUsd == dataMap[key].totalVolumeUsd + volume
                    && dataMap'[key].date == dataMap[key].date
                    && dataMap'[key].projectId == dataMap[key].projectId)
    ensures WellKeyed(dataMap) ==> WellKeyed(dataMap')
    // The same iteration as one step of the fold, for the loop invariant of `Aggregate`.
    ensures dataMap' == Step(dataMap, txn, prices, parse)
  {
    dataMap' := dataMap;
    var currencyValue := ParseCurrencyValue(txn.nums.currencyValueDecimal, parse);
    if currencyValue.Ok? {
      var priceUsd := GetPriceUSD(txn.props.currencySymbol, prices);
      if priceUsd.Ok? {
        var volume := currencyValue.value * priceUsd.value;
        assert Contribution(txn, prices, parse).Some?;
        assert Contribution(txn, prices, parse).value == volume;
        var date := Calendar.Truncate(txn.timestamp);
        var key := GroupKey(date, txn.projectId);
        dataMap' := UpdateAggregatedData(dataMap, key, date, txn.projectId, volume);
      }
    }
  }

  /**
   What the output of `Aggregate` is, stated against the reference counts: every record
   is a midnight-aligned group that has kept transactions and carries their count and
   volume; every kept transaction has the record of its group; no group appears twice;
   and the counts add up to the number of kept transactions.
   */
  ghost predicate Summarises(txns: seq<Transaction>, prices: PriceTable, parse: DecimalParser, out: seq<AggregatedData>)
  {
    && (forall r :: r in out ==>
          && r.date % Calendar.SecondsPerDay == 0
          && r.transactionCount == CountFor(txns, r.date, r.projectId, prices, parse) >= 1
          && r.totalVolumeUsd == VolumeFor(txns, r.date, r.projectId, prices, parse))
    && (forall i :: 0 <= i < |txns| && Contribution(txns[i], prices, parse).Some? ==> HasGroupOf(out, txns[i]))
    && DistinctGroups(out)
    && TotalCount(out) == KeptCount(txns, prices, parse)
  }

  /**
   `Aggregate`: one record per (UTC day, project) group that has a kept transaction,
   carrying the group's transaction count and USD volume; skipped transactions leave no
   trace and the error result is always nil. Records come out in map-iteration order.
   */
  method Aggregate(transactions: seq<Transaction>, prices: PriceTable, parse: DecimalParser)
    returns (out: seq<AggregatedData>, err: Option<string>)
    ensures err == None
    ensures Summarises(transactions, prices, parse, out)
    ensures |out| <= |transactions|
    ensures exists keys :: ListsValues(Accumulate(transactions, prices, parse), keys, out)
  {
    var dataMap: map<string, AggregatedData> := map[];
    for i := 0 to |transactions|
      invariant dataMap == Accumulate(transactions[..i], prices, parse)
    {
      assert transactions[..i + 1] == transactions[..i] + [transactions[i]];
      AccumulateSnoc(transactions[..i], transactions[i], prices, parse);
      dataMap := AggregateOne(dataMap, transactions[i], prices, parse);
    }
    assert transactions[..|transactions|] == transactions;
    out := CollectAggregatedData(dataMap);
    ghost var keys :| ListsValues(dataMap, keys, out);
    RecordsAreGroups(transactions, prices, parse, keys, out);
    KeptHaveRecords(transactions, prices, parse, keys, out);
    RecordsDistinct(transactions, prices, parse, keys, out);
    TotalCountIsGroupCounts(transactions, out, prices, parse);
    GroupCountsCoverKept(transactions, out, prices, parse);
    CountsBoundLength(out);
    err := None;
  }

  // ---------------------------------------------------------------- worked scenarios

  /** The two price entries the scenarios use. */
  function ScenarioPrices(): PriceTable
  {
    map["MATIC" := 0.408257, "SFL" := 1.23]
  }

  function ScenarioTxn(timestamp: int, symbol: string, value: string): Transaction
  {
    Transaction(timestamp, "", "", Props(symbol, "137", "", ""), Nums(value))
  }

  /** The reference sums over a two-transaction input. */
  lemma PairSums(t1: Transaction, t2: Transaction, day: int, projectId: string, prices: PriceTable, parse: DecimalParser)
    ensures CountFor([t1, t2], day, projectId, prices, parse) ==
              (if InGroup(t1, day, projectId, prices, parse) then 1 else 0)
              + (if InGroup(t2, day, projectId, prices, parse) then 1 else 0)
    ensures VolumeFor([t1, t2], day, projectId, prices, parse) ==
              (if InGroup(t1, day, projectId, prices, parse) then Contribution(t1, prices, parse).value else 0.0)
              + (if InGroup(t2, day, projectId, prices, parse) then Contribution(t2, prices, parse).value else 0.0)
  {
    var txns := [t1, t2];
    assert txns[..1] == [t1];
    assert [t1][..0] == [];
    assert CountFor([t1], day, projectId, prices, parse) == (if InGroup(t1, day, projectId, prices, parse) then 1 else 0);
    assert VolumeFor([t1], day, projectId, prices, parse) ==
             (if InGroup(t1, day, projectId, prices, parse) then Contribution(t1, prices, parse).value else 0.0);
  }

  /** Lower-case tickers find the price of their upper-case form. */
  lemma LowerCaseTickerFindsPrice()
    ensures GetPriceUSD("matic", ScenarioPrices()) == Ok(0.408257)
    ensures GetPriceUSD("USDC", ScenarioPrices()) == Err(PriceNotFound("USDC"))
  {
    assert NormalizeSymbol("matic") == "MATIC";
    assert NormalizeSymbol("USDC") == "USDC";
  }

  /**
   Two transactions of one project on one day, one at midnight and one at 10:00, make one
   record holding both (the scenario is stated for every midnight, 2024-04-02 among them).
   */
  lemma SameDayScenario(day: int, parse: DecimalParser, out: seq<AggregatedData>)
    requires day % Calendar.SecondsPerDay == 0
    requires parse("700000000000000000") == Some(700000000000000000.0)
    requires parse("200000000000000000") == Some(200000000000000000.0)
    requires Summarises([ScenarioTxn(day, "MATIC", "700000000000000000"),
                         ScenarioTxn(day + 36000, "MATIC", "200000000000000000")],
                        ScenarioPrices(), parse, out)
    ensures out == [AggregatedData(day, "", 2, (0.7 + 0.2) * 0.408257)]
  {
    var t1 := ScenarioTxn(day, "MATIC", "700000000000000000");
    var t2 := ScenarioTxn(day + 36000, "MATIC", "200000000000000000");
    var txns := [t1, t2];
    Calendar.TruncateWithinDay(day, 0);
    Calendar.TruncateWithinDay(day, 36000);
    assert Contribution(t1, ScenarioPrices(), parse).Some?;
    assert Contribution(t1, ScenarioPrices(), parse).value == 0.7 * 0.408257;
    assert Contribution(t2, ScenarioPrices(), parse).Some?;
    assert Contribution(t2, ScenarioPrices(), parse).value == 0.2 * 0.408257;
    assert HasGroupOf(out, txns[0]);
    var r :| r in out && r.date == day && r.projectId == "";
    PairSums(t1, t2, day, "", ScenarioPrices(), parse);
    forall q | q in out ensures q.date == day && q.projectId == "" {
      PairSums(t1, t2, q.date, q.projectId, ScenarioPrices(), parse);
    }
    assert KeptCount(txns, ScenarioPrices(), parse) == 2 by {
      assert txns[..1] == [t1] && [t1][..0] == [];
    }
    UniformCounts(out, 2);
    assert out[0] in out;
    assert out == [r];
  }

  /** Transactions on different days land in different records, one each. */
  lemma TwoDayScenario(day1: int, day2: int, parse: DecimalParser, out: seq<AggregatedData>)
    requires day1 % Calendar.SecondsPerDay == 0 && day2 % Calendar.SecondsPerDay == 0 && day1 != day2
    requires parse("1316777549196586000") == Some(1316777549196586000.0)
    requires parse("700000000000000000") == Some(700000000000000000.0)
    requires Summarises([ScenarioTxn(day1, "SFL", "1316777549196586000"),
                         ScenarioTxn(day2, "MATIC", "700000000000000000")],
                        ScenarioPrices(), parse, out)
    ensures |out| == 2
    ensures AggregatedData(day1, "", 1, 1.316777549196586 * 1.23) in out
    ensures AggregatedData(day2, "", 1, 0.7 * 0.408257) in out
  {
    var t1 := ScenarioTxn(day1, "SFL", "1316777549196586000");
    var t2 := ScenarioTxn(day2, "MATIC", "700000000000000000");
    var txns := [t1, t2];
    Calendar.TruncateWithinDay(day1, 0);
    Calendar.TruncateWithinDay(day2, 0);
    assert Contribution(t1, ScenarioPrices(), parse).Some?;
    assert Contribution(t1, ScenarioPrices(), parse).value == 1.316777549196586 * 1.23;
    assert Contribution(t2, ScenarioPrices(), parse).Some?;
    assert Contribution(t2, ScenarioPrices(), parse).value == 0.7 * 0.408257;
    assert HasGroupOf(out, txns[0]) && HasGroupOf(out, txns[1]);
    var r1 :| r1 in out && r1.date == day1 && r1.projectId == "";
    var r2 :| r2 in out && r2.date == day2 && r2.projectId == "";
    PairSums(t1, t2, day1, "", ScenarioPrices(), parse);
    PairSums(t1, t2, day2, "", ScenarioPrices(), parse);
    assert r1 == AggregatedData(day1, "", 1, 1.316777549196586 * 1.23);
    assert r2 == AggregatedData(day2, "", 1, 0.7 * 0.408257);
    CountsBoundLength(out);
    var i :| 0 <= i < |out| && out[i] == r1;
    var j :| 0 <= j < |out| && out[j] == r2;
    assert i != j;
  }

  /** A transaction whose currency has no price, or whose value does not parse, leaves no record. */
  lemma SkippedScenarios(timestamp: int, parse: DecimalParser, out1: seq<AggregatedData>, out2: seq<AggregatedData>)
    requires parse("invalid_value") == None
    requires Summarises([ScenarioTxn(timestamp, "USDC", "1000000")], ScenarioPrices(), parse, out1)
    requires Summarises([ScenarioTxn(timestamp, "MATIC", "invalid_value")], ScenarioPrices(), parse, out2)
    ensures out1 == [] && out2 == []
  {
    assert NormalizeSymbol("USDC") == "USDC";
    CountsBoundLength(out1);
    CountsBoundLength(out2);
  }
}
