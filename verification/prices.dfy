/** The price record passed from the feed listener to the service (model/Price.java). */
module Prices {
  import opened Wrappers
  import opened Instruments

  /**
   * One quote. `instrumentName` is None when the feed label was not on the
   * whitelist (the Java field is then left null). `bid` and `ask` are the
   * exact numeric values of the BigDecimals; `timestamp` is carried verbatim.
   */
  datatype Price = Price(
    id: int,
    instrumentName: Option<Instrument>,
    bid: real,
    ask: real,
    timestamp: string)
}
