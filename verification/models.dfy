/** The records the pipeline passes between its stages. */
module Models {

  datatype Props = Props(
    currencySymbol: string,
    chainId: string,
    collectionAddress: string,
    currencyAddress: string)

  datatype Nums = Nums(currencyValueDecimal: string)

  /** One marketplace event; `timestamp` is an instant in Unix seconds (UTC). */
  datatype Transaction = Transaction(
    timestamp: int,
    event: string,
    projectId: string,
    props: Props,
    nums: Nums)

  /** Activity of one project on one day: `date` is the midnight (Unix seconds) starting that day. */
  datatype AggregatedData = AggregatedData(
    date: int,
    projectId: string,
    transactionCount: nat,
    totalVolumeUsd: real)
}
